/** What every tokenization satisfies: it loses nothing, there is only one, and its
    positions are those of a plain scan up to two exactly stated differences. */
module LexTheorems {
  import opened Utf8
  import opened LexSpec
  import opened LexPosition
  import opened SqlLexer

  // ---- losslessness --------------------------------------------------------------

  ghost function Texts(ts: seq<Token>): seq<Byte> {
    if ts == [] then [] else Texts(ts[..|ts| - 1]) + ts[|ts| - 1].text
  }

  lemma PrefixTokens(s: seq<Byte>, ts: seq<Token>, end: nat, words: set<string>, alnum: UnicodeTable)
    requires TokensUpTo(s, ts, end, words, alnum) && ts != []
    ensures TokensUpTo(s, ts[..|ts| - 1], ts[|ts| - 1].offset, words, alnum)
  {
    var init := ts[..|ts| - 1];
    forall n | 0 <= n < |init| ensures TokenOf(s, init[n], words, alnum) {
      assert TokenOf(s, ts[n], words, alnum) && init[n] == ts[n];
    }
    forall n | 0 < n < |init| ensures Follows(s, init, n) {
      assert Follows(s, ts, n) && init[n] == ts[n] && init[n - 1] == ts[n - 1];
    }
    if init != [] { assert Follows(s, ts, |init|); }
  }

  /** The texts, put together, are the part of the source that was read. */
  lemma {:induction false} PrefixLossless(s: seq<Byte>, ts: seq<Token>, end: nat, words: set<string>, alnum: UnicodeTable)
    requires TokensUpTo(s, ts, end, words, alnum)
    ensures end <= |s| && Texts(ts) == s[..end]
  {
    if ts != [] {
      var n := |ts| - 1;
      var init := ts[..n];
      assert TokenOf(s, ts[n], words, alnum);
      PrefixTokens(s, ts, end, words, alnum);
      PrefixLossless(s, init, ts[n].offset, words, alnum);
      assert s[..end] == s[..ts[n].offset] + s[ts[n].offset..end];
    }
  }

  /** Nothing of the source is dropped, added or moved, and no token is empty. */
  lemma Lossless(s: seq<Byte>, ts: seq<Token>, words: set<string>, alnum: UnicodeTable)
    requires Tokenization(s, ts, words, alnum)
    ensures Texts(ts) == s
    ensures forall n :: 0 <= n < |ts| ==> |ts[n].text| > 0
  {
    PrefixLossless(s, ts, |s|, words, alnum);
    assert s[..|s|] == s;
    forall n | 0 <= n < |ts| ensures |ts[n].text| > 0 {
      assert TokenOf(s, ts[n], words, alnum);
    }
  }

  // ---- determinism -----------------------------------------------------------------

  lemma SameToken(s: seq<Byte>, t: Token, u: Token, words: set<string>, alnum: UnicodeTable)
    requires TokenOf(s, t, words, alnum) && TokenOf(s, u, words, alnum) && t.offset == u.offset
    ensures t.kind == u.kind && t.text == u.text
  {
    LexemeUnique(s, t.offset, t.kind, EndOf(t), u.kind, EndOf(u), words, alnum);
  }

  lemma {:induction false} SamePrefix(s: seq<Byte>, ts: seq<Token>, us: seq<Token>, n: nat, words: set<string>, alnum: UnicodeTable)
    requires Tokenization(s, ts, words, alnum) && Tokenization(s, us, words, alnum)
    requires n <= |ts| && n <= |us|
    ensures ts[..n] == us[..n]
  {
    if n > 0 {
      SamePrefix(s, ts, us, n - 1, words, alnum);
      var t, u := ts[n - 1], us[n - 1];
      assert TokenOf(s, t, words, alnum) && TokenOf(s, u, words, alnum);
      if n > 1 {
        assert ts[n - 2] == ts[..n - 1][n - 2] == us[..n - 1][n - 2] == us[n - 2];
        assert Follows(s, ts, n - 1) && Follows(s, us, n - 1);
      }
      SameToken(s, t, u, words, alnum);
      assert ts[..n] == ts[..n - 1] + [t] && us[..n] == us[..n - 1] + [u];
    }
  }

  lemma {:induction false} EndsGrow(s: seq<Byte>, ts: seq<Token>, m: nat, n: nat, words: set<string>, alnum: UnicodeTable)
    requires Tokenization(s, ts, words, alnum) && m < n < |ts|
    ensures EndOf(ts[m]) < EndOf(ts[n])
  {
    assert TokenOf(s, ts[n], words, alnum) && Follows(s, ts, n);
    if m < n - 1 { EndsGrow(s, ts, m, n - 1, words, alnum); }
  }

  lemma NotLonger(s: seq<Byte>, ts: seq<Token>, us: seq<Token>, words: set<string>, alnum: UnicodeTable)
    requires Tokenization(s, ts, words, alnum) && Tokenization(s, us, words, alnum)
    ensures |us| <= |ts|
  {
    var n := |ts|;
    if 0 < n < |us| {
      SamePrefix(s, ts, us, n, words, alnum);
      assert us[n - 1] == us[..n][n - 1] == ts[..n][n - 1] == ts[n - 1];
      EndsGrow(s, us, n - 1, |us| - 1, words, alnum);
    } else if 0 < |us| {
      assert TokenOf(s, us[0], words, alnum);
    }
  }

  /** A source has at most one tokenization: kinds, texts, offsets and positions. */
  lemma TokenizationUnique(s: seq<Byte>, ts: seq<Token>, us: seq<Token>, words: set<string>, alnum: UnicodeTable)
    requires Tokenization(s, ts, words, alnum) && Tokenization(s, us, words, alnum)
    ensures ts == us
  {
    NotLonger(s, ts, us, words, alnum);
    NotLonger(s, us, ts, words, alnum);
    SamePrefix(s, ts, us, |ts|, words, alnum);
    assert ts[..|ts|] == ts && us[..|us|] == us;
  }

  // ---- positions ---------------------------------------------------------------------

  /** Carriage returns in s[i..j] that no line feed follows. */
  ghost function BareCrs(s: seq<Byte>, i: nat, j: nat): nat
    requires i <= j <= |s|
  {
    if i == j then 0 else BareCrs(s, i, j - 1) + (if IsBareCr(s, j - 1) then 1 else 0)
  }

  lemma {:induction false} PlainLines(c: Counting, s: seq<Byte>, i: nat, j: nat, p: Position, q: Position)
    requires i <= j <= |s|
    ensures Walk(Plain, s, i, j, p).line - p.line
         == Walk(c, s, i, j, q).line - q.line + (if c == Quoted then BareCrs(s, i, j) else 0)
  {
    if i < j { PlainLines(c, s, i, j - 1, p, q); }
  }

  lemma {:induction false} PlainWalk(c: Counting, s: seq<Byte>, i: nat, j: nat, p: Position)
    requires i <= j <= |s|
    requires c == Quoted ==> BareCrs(s, i, j) == 0
    requires c == Word ==> forall k :: i <= k < j ==> s[k] < 0x80
    ensures Walk(Plain, s, i, j, p) == Walk(c, s, i, j, p)
  {
    if i < j { PlainWalk(c, s, i, j - 1, p); }
  }

  /** The line breaks a token does not count: bare carriage returns in a quoted identifier. */
  ghost function LostBreaks(s: seq<Byte>, t: Token): nat
    requires EndOf(t) <= |s|
  {
    if t.kind == QuotedIdent then BareCrs(s, t.offset, EndOf(t)) else 0
  }

  ghost predicate InSource(s: seq<Byte>, ts: seq<Token>) {
    forall n :: 0 <= n < |ts| ==> EndOf(ts[n]) <= |s|
  }

  ghost function AllLostBreaks(s: seq<Byte>, ts: seq<Token>): nat
    requires InSource(s, ts)
  {
    if ts == [] then 0 else AllLostBreaks(s, ts[..|ts| - 1]) + LostBreaks(s, ts[|ts| - 1])
  }

  lemma TokensInSource(s: seq<Byte>, ts: seq<Token>, words: set<string>, alnum: UnicodeTable)
    requires Tokenization(s, ts, words, alnum)
    ensures InSource(s, ts)
  {
    forall n | 0 <= n < |ts| ensures EndOf(ts[n]) <= |s| {
      assert TokenOf(s, ts[n], words, alnum);
    }
  }

  /** Exact lines, for every valid source: the plain scan's line is the token's line plus
      the breaks lost in the quoted identifiers before it. */
  lemma {:induction false} LineExact(s: seq<Byte>, ts: seq<Token>, n: nat, words: set<string>, alnum: UnicodeTable)
    requires Tokenization(s, ts, words, alnum) && n < |ts|
    ensures InSource(s, ts) && ts[n].offset <= |s|
    ensures NaivePosition(s, ts[n].offset).line == ts[n].line + AllLostBreaks(s, ts[..n])
  {
    TokensInSource(s, ts, words, alnum);
    if n > 0 {
      LineExact(s, ts, n - 1, words, alnum);
      var t := ts[n - 1];
      var p := NaivePosition(s, t.offset);
      assert ts[..n][..n - 1] == ts[..n - 1];
      WalkJoin(Plain, s, 0, t.offset, EndOf(t), Position(1, 1));
      PlainLines(CountingOf(t.kind), s, t.offset, EndOf(t), p, Position(t.line, t.column));
      assert Follows(s, ts, n);
    }
  }

  /** The position of every token is that of the plain scan. */
  ghost predicate PositionsExact(s: seq<Byte>, ts: seq<Token>)
    requires InSource(s, ts)
  {
    forall n :: 0 <= n < |ts| ==> ExactAt(s, ts, n)
  }

  /** No line break in t is lost, and t is no word with a character outside ASCII. */
  ghost predicate CountedPlainly(s: seq<Byte>, t: Token)
    requires EndOf(t) <= |s|
  {
    LostBreaks(s, t) == 0 && (CountingOf(t.kind) == Word ==> forall k :: t.offset <= k < EndOf(t) ==> s[k] < 0x80)
  }

  ghost function Continuations(s: seq<Byte>, i: nat, j: nat): nat
    requires i <= j <= |s|
  {
    if i == j then 0 else Continuations(s, i, j - 1) + (if IsContinuation(s[j - 1]) then 1 else 0)
  }

  lemma {:induction false} WalkWord(s: seq<Byte>, i: nat, j: nat, p: Position)
    requires i <= j <= |s| && forall k :: i <= k < j ==> !IsLineEnd(s[k])
    ensures Walk(Word, s, i, j, p).column + Continuations(s, i, j) == p.column + (j - i)
  {
    if i < j { WalkWord(s, i, j - 1, p); }
  }

  lemma {:induction false} SomeContinuation(s: seq<Byte>, i: nat, j: nat, k: nat)
    requires i <= k < j <= |s| && IsContinuation(s[k])
    ensures Continuations(s, i, j) > 0
  {
    if k < j - 1 { SomeContinuation(s, i, j - 1, k); }
  }

  /** Between boundaries, a character outside ASCII has a continuation octet. */
  lemma WideHasContinuation(s: seq<Byte>, i: nat, j: nat, k: nat)
    requires WellFormed(s) && i <= k < j && IsBoundary(s, j) && s[k] >= 0x80
    ensures Continuations(s, i, j) > 0
  {
    if IsContinuation(s[k]) {
      SomeContinuation(s, i, j, k);
    } else {
      assert CharAt(s, k);
      SomeContinuation(s, i, j, k + 1);
    }
  }

  /** Both ways of counting t end in the same place exactly when t is counted plainly. */
  lemma SameCountIff(s: seq<Byte>, t: Token, p: Position, words: set<string>, alnum: UnicodeTable)
    requires WellFormed(s) && TokenOf(s, t, words, alnum)
    ensures Walk(Plain, s, t.offset, EndOf(t), p) == Walk(CountingOf(t.kind), s, t.offset, EndOf(t), p) <==> CountedPlainly(s, t)
  {
    var c, i, j := CountingOf(t.kind), t.offset, EndOf(t);
    PlainLines(c, s, i, j, p, p);
    if CountedPlainly(s, t) {
      PlainWalk(c, s, i, j, p);
    } else if c == Word {
      WalkInLine(Plain, s, i, j, p);
      WalkWord(s, i, j, p);
      var k :| i <= k < j && s[k] >= 0x80;
      WideHasContinuation(s, i, j, k);
    }
  }

  ghost predicate ExactAt(s: seq<Byte>, ts: seq<Token>, n: nat)
    requires InSource(s, ts) && n < |ts|
  {
    Position(ts[n].line, ts[n].column) == NaivePosition(s, ts[n].offset)
  }

  /** From a token at its place, the next is at its place exactly when this one is counted plainly. */
  lemma NextExactIff(s: seq<Byte>, ts: seq<Token>, n: nat, words: set<string>, alnum: UnicodeTable)
    requires WellFormed(s) && Tokenization(s, ts, words, alnum) && n + 1 < |ts|
    requires InSource(s, ts) && ExactAt(s, ts, n)
    ensures ExactAt(s, ts, n + 1) <==> CountedPlainly(s, ts[n])
  {
    var t := ts[n];
    assert TokenOf(s, t, words, alnum) && Follows(s, ts, n + 1);
    WalkJoin(Plain, s, 0, t.offset, EndOf(t), Position(1, 1));
    SameCountIff(s, t, NaivePosition(s, t.offset), words, alnum);
  }

  lemma {:induction false} PlainlySoFarExact(s: seq<Byte>, ts: seq<Token>, n: nat, words: set<string>, alnum: UnicodeTable)
    requires WellFormed(s) && Tokenization(s, ts, words, alnum) && n < |ts|
    requires InSource(s, ts) && forall m :: 0 <= m < n ==> CountedPlainly(s, ts[m])
    ensures ExactAt(s, ts, n)
  {
    if n > 0 {
      PlainlySoFarExact(s, ts, n - 1, words, alnum);
      NextExactIff(s, ts, n - 1, words, alnum);
    }
  }

  /** All positions are those of the plain scan exactly when no token with a token after it is a
      quoted identifier with a bare carriage return or a word with a character outside ASCII. */
  lemma PositionsExactIff(s: seq<Byte>, ts: seq<Token>, words: set<string>, alnum: UnicodeTable)
    requires WellFormed(s) && Tokenization(s, ts, words, alnum)
    ensures InSource(s, ts)
    ensures PositionsExact(s, ts) <==> forall m :: 0 <= m < |ts| - 1 ==> CountedPlainly(s, ts[m])
  {
    TokensInSource(s, ts, words, alnum);
    if PositionsExact(s, ts) {
      forall m | 0 <= m < |ts| - 1 ensures CountedPlainly(s, ts[m]) {
        assert ExactAt(s, ts, m) && ExactAt(s, ts, m + 1);
        NextExactIff(s, ts, m, words, alnum);
      }
    }
    if forall m :: 0 <= m < |ts| - 1 ==> CountedPlainly(s, ts[m]) {
      forall n | 0 <= n < |ts| ensures ExactAt(s, ts, n) {
        PlainlySoFarExact(s, ts, n, words, alnum);
      }
    }
  }

  lemma {:induction false} WalkBound(c: Counting, s: seq<Byte>, i: nat, j: nat, p: Position)
    requires i <= j <= |s| && p.column >= 1
    ensures var q := Walk(c, s, i, j, p); 1 <= q.column && q.line + q.column <= p.line + p.column + (j - i)
  {
    if i < j { WalkBound(c, s, i, j - 1, p); }
  }

  /** Lines and columns never exceed offset + 1: 32-bit counters do not wrap on any source
      shorter than 2^32 - 1 octets. */
  lemma {:induction false} PositionBound(s: seq<Byte>, ts: seq<Token>, n: nat, words: set<string>, alnum: UnicodeTable)
    requires Tokenization(s, ts, words, alnum) && n < |ts|
    ensures 1 <= ts[n].line && 1 <= ts[n].column
    ensures ts[n].line + ts[n].column <= ts[n].offset + 2
  {
    if n > 0 {
      PositionBound(s, ts, n - 1, words, alnum);
      var t := ts[n - 1];
      assert TokenOf(s, t, words, alnum);
      WalkBound(CountingOf(t.kind), s, t.offset, EndOf(t), Position(t.line, t.column));
      PlainLines(CountingOf(t.kind), s, t.offset, EndOf(t), Position(1, 1), Position(t.line, t.column));
      LineGrows(CountingOf(t.kind), s, t.offset, EndOf(t), Position(t.line, t.column));
      assert Follows(s, ts, n);
    }
  }

  lemma {:induction false} LineGrows(c: Counting, s: seq<Byte>, i: nat, j: nat, p: Position)
    requires i <= j <= |s|
    ensures p.line <= Walk(c, s, i, j, p).line
  {
    if i < j { LineGrows(c, s, i, j - 1, p); }
  }
}
