/** Upper and lower case make no difference to the lexer, but for the texts of its tokens. */
module LexCase {
  import opened Utf8
  import opened LexSpec
  import opened LexPosition
  import opened SqlLexer
  import opened LexTheorems

  /** The same octet, or the same ASCII letter in the other case. */
  predicate SameLetter(b: Byte, c: Byte) {
    b == c || (b == c + 32 && 'A' as int <= c <= 'Z' as int) || (c == b + 32 && 'A' as int <= b <= 'Z' as int)
  }

  ghost predicate SameButCase(s: seq<Byte>, s': seq<Byte>) {
    |s| == |s'| && forall k :: 0 <= k < |s| ==> SameLetter(s[k], s'[k])
  }

  lemma SameUpper(w: seq<Byte>, w': seq<Byte>)
    requires SameButCase(w, w')
    ensures UpperText(w) == UpperText(w')
  {
  }

  lemma SameSlice(s: seq<Byte>, s': seq<Byte>, i: nat, j: nat)
    requires SameButCase(s, s') && i <= j <= |s|
    ensures SameButCase(s[i..j], s'[i..j])
  {
  }

  lemma SamePairs(s: seq<Byte>, s': seq<Byte>, a: Byte, b: Byte)
    requires SameButCase(s, s') && !IsLetter(a) && !IsLetter(b)
    ensures forall q: nat :: PairAt(s, q, a, b) == PairAt(s', q, a, b)
  {
  }

  lemma {:induction false} SamePieces(s: seq<Byte>, s': seq<Byte>, p: nat, n: nat)
    requires SameButCase(s, s')
    ensures PieceEnd(s, p, n) == PieceEnd(s', p, n) && DepthAfter(s, p, n) == DepthAfter(s', p, n)
  {
    if n > 0 {
      SamePieces(s, s', p, n - 1);
      SamePairs(s, s', SLASH, STAR);
      SamePairs(s, s', STAR, SLASH);
    }
  }

  lemma SameComment(s: seq<Byte>, s': seq<Byte>, p: nat, j: nat)
    requires SameButCase(s, s') && CommentBody(s, p, j)
    ensures CommentBody(s', p, j)
  {
    var n: nat :| BlockCommentEnds(s, p, j, n);
    forall m: nat ensures PieceEnd(s, p, m) == PieceEnd(s', p, m) && DepthAfter(s, p, m) == DepthAfter(s', p, m) {
      SamePieces(s, s', p, m);
    }
    forall m | 0 <= m < n ensures StillOpen(s', p, m) {
      assert StillOpen(s, p, m);
    }
    assert BlockCommentEnds(s', p, j, n);
  }

  lemma {:induction false} SameQuotes(s: seq<Byte>, s': seq<Byte>, a: nat, b: nat)
    requires SameButCase(s, s') && a <= b <= |s|
    ensures QuotesPaired(s, a, b) == QuotesPaired(s', a, b)
    decreases b
  {
    if a < b {
      assert SameLetter(s[b - 1], s'[b - 1]);
      SameQuotes(s, s', a, b - 1);
      if a + 2 <= b {
        assert SameLetter(s[b - 2], s'[b - 2]);
        SameQuotes(s, s', a, b - 2);
      }
    }
  }

  lemma SameString(s: seq<Byte>, s': seq<Byte>, i: nat, j: nat)
    requires SameButCase(s, s') && i < |s| && StringLex(s, i, j)
    ensures StringLex(s', i, j)
  {
    SameQuotes(s, s', i + 1, j);
    if i + 2 <= j { SameQuotes(s, s', i + 1, j - 1); }
    hide QuotesPaired;
  }

  lemma SameNumber(s: seq<Byte>, s': seq<Byte>, i: nat, j: nat)
    requires SameButCase(s, s') && i < |s| && NumberLex(s, i, j)
    ensures NumberLex(s', i, j)
  {
    var a: nat, b: nat :| NumberParts(s, i, a, b, j);
    assert NumberParts(s', i, a, b, j);
  }

  lemma SameChar(s: seq<Byte>, s': seq<Byte>, p: nat, alnum: UnicodeTable)
    requires SameButCase(s, s') && p < |s|
    ensures IsContinuation(s[p]) == IsContinuation(s'[p]) && StartsWord(s[p]) == StartsWord(s'[p])
    ensures ContinuesWord(s, p, alnum) == ContinuesWord(s', p, alnum)
  {
    forall k | 0 <= k < |s| && (s[k] > 127 || s'[k] > 127) ensures s[k] == s'[k] {
      assert SameLetter(s[k], s'[k]);
    }
    assert SameLetter(s[p], s'[p]);
    if s[p] > 127 {
      SameDecoding(s, s', p);
    }
  }

  lemma SameDecoding(s: seq<Byte>, s': seq<Byte>, p: nat)
    requires |s| == |s'| && p < |s| && s[p] == s'[p] > 127 && forall k :: 0 <= k < |s| && (s[k] > 127 || s'[k] > 127) ==> s[k] == s'[k]
    ensures CharAt(s, p) == CharAt(s', p) && (CharAt(s, p) ==> DecodeAt(s, p) == DecodeAt(s', p))
  {
  }

  lemma SameWord(s: seq<Byte>, s': seq<Byte>, i: nat, j: nat, alnum: UnicodeTable)
    requires SameButCase(s, s') && i < |s| && WordLex(s, i, j, alnum)
    ensures WordLex(s', i, j, alnum)
  {
    forall p: nat | p < |s|
      ensures IsContinuation(s[p]) == IsContinuation(s'[p]) && StartsWord(s[p]) == StartsWord(s'[p])
      ensures ContinuesWord(s, p, alnum) == ContinuesWord(s', p, alnum)
    {
      SameChar(s, s', p, alnum);
    }
    hide ContinuesWord, StartsWord, SameButCase;
  }

  /** The token rules allow the same kinds and ends. */
  lemma SameLexeme(s: seq<Byte>, s': seq<Byte>, i: nat, k: TokenKind, j: nat, words: set<string>, alnum: UnicodeTable)
    requires SameButCase(s, s') && Lexeme(s, i, k, j, words, alnum)
    ensures Lexeme(s', i, k, j, words, alnum)
  {
    assert SameLetter(s[i], s'[i]);
    match k
    case BlockComment =>
      SamePairs(s, s', SLASH, STAR);
      SameComment(s, s', i + 2, j);
    case StringLiteral => SameString(s, s', i, j);
    case NumberLiteral => SameNumber(s, s', i, j);
    case Keyword =>
      SameWord(s, s', i, j, alnum);
      SameSlice(s, s', i, j);
      SameUpper(s[i..j], s'[i..j]);
    case Identifier =>
      SameWord(s, s', i, j, alnum);
      SameSlice(s, s', i, j);
      SameUpper(s[i..j], s'[i..j]);
    case JinjaBlock =>
      SamePairs(s, s', LBRACE, PERCENT);
      SamePairs(s, s', LBRACE, HASH);
      SamePairs(s, s', PERCENT, RBRACE);
      SamePairs(s, s', HASH, RBRACE);
    case _ =>
  }

  lemma {:induction false} SameWalk(c: Counting, s: seq<Byte>, s': seq<Byte>, i: nat, j: nat, p: Position)
    requires SameButCase(s, s') && i <= j <= |s|
    ensures Walk(c, s, i, j, p) == Walk(c, s', i, j, p)
  {
    if i < j {
      SameWalk(c, s, s', i, j - 1, p);
      assert SameLetter(s[j - 1], s'[j - 1]);
      SamePairs(s, s', CR, LF);
    }
  }

  /** The tokens with their texts taken from s. */
  ghost function Retexted(s: seq<Byte>, ts: seq<Token>): seq<Token>
    requires InSource(s, ts)
  {
    seq(|ts|, n requires 0 <= n < |ts| => Retext(s, ts[n]))
  }

  function Retext(s: seq<Byte>, t: Token): Token
    requires EndOf(t) <= |s|
  {
    t.(text := s[t.offset..EndOf(t)])
  }

  lemma SameToken(s: seq<Byte>, s': seq<Byte>, t: Token, words: set<string>, alnum: UnicodeTable)
    requires SameButCase(s, s') && TokenOf(s, t, words, alnum)
    ensures TokenOf(s', Retext(s', t), words, alnum)
    ensures PositionAfter(s', Retext(s', t)) == PositionAfter(s, t)
  {
    var i, j := t.offset, EndOf(t);
    SameLexeme(s, s', i, t.kind, j, words, alnum);
    hide Lexeme;
    SameChar(s, s', i, alnum);
    if j < |s| { SameChar(s, s', j, alnum); }
    SameWalk(CountingOf(t.kind), s, s', i, j, Position(t.line, t.column));
    hide ContinuesWord, StartsWord, Walk, CountingOf, SameButCase;
  }

  lemma SameTokenAt(s: seq<Byte>, s': seq<Byte>, ts: seq<Token>, n: nat, words: set<string>, alnum: UnicodeTable)
    requires SameButCase(s, s') && InSource(s', ts) && n < |ts| && Tokenization(s, ts, words, alnum)
    ensures TokenOf(s', Retexted(s', ts)[n], words, alnum)
  {
    assert TokenOf(s, ts[n], words, alnum);
    hide TokenOf;
    SameToken(s, s', ts[n], words, alnum);
  }

  lemma SameFollows(s: seq<Byte>, s': seq<Byte>, ts: seq<Token>, n: nat, words: set<string>, alnum: UnicodeTable)
    requires SameButCase(s, s') && InSource(s', ts) && 0 < n < |ts| && Tokenization(s, ts, words, alnum)
    ensures Follows(s', Retexted(s', ts), n)
  {
    assert Follows(s, ts, n) && TokenOf(s, ts[n - 1], words, alnum);
    SameToken(s, s', ts[n - 1], words, alnum);
    hide TokenOf, PositionAfter, Tokenization;
  }

  lemma SameEnds(s: seq<Byte>, s': seq<Byte>, ts: seq<Token>, words: set<string>, alnum: UnicodeTable)
    requires SameButCase(s, s') && Tokenization(s, ts, words, alnum)
    ensures |s| == |s'| && InSource(s', ts) && (ts == [] ==> s == [])
    ensures ts != [] ==> ts[0].offset == 0 && ts[0].line == 1 && ts[0].column == 1 && |s| == EndOf(ts[|ts| - 1])
  {
    TokensInSource(s, ts, words, alnum);
    hide TokenOf, Follows;
  }

  lemma Assembled(s: seq<Byte>, ts: seq<Token>, words: set<string>, alnum: UnicodeTable)
    requires forall n :: 0 <= n < |ts| ==> TokenOf(s, ts[n], words, alnum)
    requires forall n :: 0 < n < |ts| ==> Follows(s, ts, n)
    requires ts == [] ==> s == []
    requires ts != [] ==> ts[0].offset == 0 && ts[0].line == 1 && ts[0].column == 1 && |s| == EndOf(ts[|ts| - 1])
    ensures Tokenization(s, ts, words, alnum)
  {
    hide TokenOf, Follows;
  }

  lemma SameTokens(s: seq<Byte>, s': seq<Byte>, ts: seq<Token>, words: set<string>, alnum: UnicodeTable)
    requires SameButCase(s, s') && Tokenization(s, ts, words, alnum)
    ensures InSource(s', ts) && Tokenization(s', Retexted(s', ts), words, alnum)
  {
    hide TokensUpTo, Tokenization, TokenOf, Follows, SameButCase;
    SameEnds(s, s', ts, words, alnum);
    var us := Retexted(s', ts);
    forall n | 0 <= n < |us| ensures TokenOf(s', us[n], words, alnum) {
      SameTokenAt(s, s', ts, n, words, alnum);
    }
    forall n | 0 < n < |us| ensures Follows(s', us, n) {
      SameFollows(s, s', ts, n, words, alnum);
    }
    Assembled(s', us, words, alnum);
  }

  /** Two sources that differ only in the case of ASCII letters have the same tokens: kinds,
      offsets, lengths and positions. */
  lemma CaseDoesNotMatter(s: seq<Byte>, s': seq<Byte>, ts: seq<Token>, ts': seq<Token>, words: set<string>, alnum: UnicodeTable)
    requires SameButCase(s, s') && Tokenization(s, ts, words, alnum) && Tokenization(s', ts', words, alnum)
    ensures |ts| == |ts'|
    ensures forall n :: 0 <= n < |ts| ==> ts'[n] == ts[n].(text := ts'[n].text) && |ts'[n].text| == |ts[n].text|
  {
    SameTokens(s, s', ts, words, alnum);
    TokenizationUnique(s', ts', Retexted(s', ts), words, alnum);
    hide Tokenization;
    assert ts' == Retexted(s', ts);
  }
}
