/** The token rules in characters: which octets, pairs and marks begin and end which tokens. */
module LexKinds {
  import opened Utf8
  import opened LexSpec
  import opened Options

  /** A token of one octet, by its character. */
  function KindAlone(c: char): TokenKind {
    if c in " \t" then Whitespace
    else if c in "\n\r" then Newline
    else if c in "<>=+-*/%" then Operator
    else if c == '(' then LeftParen
    else if c == ')' then RightParen
    else if c == ',' then Comma
    else if c == ';' then Semicolon
    else if c == '.' then Dot
    else if '0' <= c <= '9' then NumberLiteral
    else if c == '\'' then StringLiteral
    else if c in "`\"" then QuotedIdent
    else if 'a' <= c <= 'z' || 'A' <= c <= 'Z' || c in "_$" || c > 127 as char then Identifier
    else Unknown
  }

  /** A source of one octet is one token of that kind, a keyword for an identifier. */
  lemma AloneKind(b: Byte, k: TokenKind, words: set<string>, alnum: UnicodeTable)
    ensures Lexeme([b], 0, k, 1, words, alnum) <==>
      k == if KindAlone(b as char) == Identifier && UpperText([b]) in words then Keyword else KindAlone(b as char)
  {
    hide DecodeAt, CharAt, UpperText;
    if k == Keyword || k == Identifier {
      assert [b][0..1] == [b];
    } else if k == NumberLiteral {
      if IsDigit(b) { assert NumberParts([b], 0, 1, 1, 1); }
    } else {
      AloneSymbol(b, k, words, alnum);
    }
  }

  lemma AloneSymbol(b: Byte, k: TokenKind, words: set<string>, alnum: UnicodeTable)
    requires k !in {Keyword, Identifier, NumberLiteral}
    ensures Lexeme([b], 0, k, 1, words, alnum) <==> k == KindAlone(b as char)
  {
    hide DecodeAt, CharAt, UpperText;
  }

  /** Tokens of two octets, neither of them a space, a digit, a word or a literal. */
  function KindOfPair(a: char, b: char): Option<TokenKind> {
    if [a, b] in {"<>", "<=", ">=", "!="} then Some(Operator)
    else if [a, b] == "{{" then Some(JinjaOpen)
    else if [a, b] == "}}" then Some(JinjaClose)
    else if [a, b] in {"{%", "{#"} then Some(JinjaBlock)
    else if [a, b] == "--" then Some(LineComment)
    else if [a, b] == "/*" then Some(BlockComment)
    else if [a, b] == "\r\n" then Some(Newline)
    else None
  }

  lemma PairKind(a: Byte, b: Byte, k: TokenKind, words: set<string>, alnum: UnicodeTable)
    requires k !in {Whitespace, NumberLiteral, Keyword, Identifier, StringLiteral, QuotedIdent}
    ensures Lexeme([a, b], 0, k, 2, words, alnum) <==> KindOfPair(a as char, b as char) == Some(k)
  {
    if k == BlockComment && PairAt([a, b], 0, SLASH, STAR) { assert BlockCommentEnds([a, b], 2, 2, 0); }
  }

  /** What may follow in a word, of the ASCII characters. */
  lemma WordGoesOn(a: Byte, b: Byte, alnum: UnicodeTable)
    requires KindAlone(a as char) == Identifier && a < 0x80 && b < 0x80
    ensures Lexeme([a, b], 0, Identifier, 2, {}, alnum) <==> KindAlone(b as char) in {Identifier, NumberLiteral}
  {
    var s := [a, b];
    assert StartsWord(s[0]) && !IsContinuation(s[1]);
    assert ContinuesWord(s, 1, alnum) <==> KindAlone(b as char) in {Identifier, NumberLiteral};
    if ContinuesWord(s, 1, alnum) {
      forall p | 0 < p < 2 && !IsContinuation(s[p]) ensures ContinuesWord(s, p, alnum) { assert p == 1; }
      assert WordLex(s, 0, 2, alnum);
    }
  }

  /** And of the others: those that the Unicode table has. */
  lemma WideGoesOn(a: Byte, c: Scalar, alnum: UnicodeTable)
    requires KindAlone(a as char) == Identifier && a < 0x80 && c >= 0x80
    ensures var s := [a] + Encode(c); Lexeme(s, 0, Identifier, |s|, {}, alnum) <==> alnum(c)
  {
    var e := Encode(c);
    var s := [a] + e;
    EncodeStarts(c, []);
    assert e + [] == e;
    EncodedAt(a, c);
    assert forall k :: 1 <= k < |s| ==> s[k] == e[k - 1];
    assert StartsWord(s[0]) && !IsContinuation(s[1]);
    assert ContinuesWord(s, 1, alnum) <==> alnum(c);
    hide ContinuesWord, DecodeAt, Encode, CharAt;
    assert WordLex(s, 0, |s|, alnum) <==> ContinuesWord(s, 1, alnum);
  }

  lemma Recombined(c: Scalar)
    ensures (c / 0x40) * 0x40 + c % 0x40 == c
    ensures c / 0x1000 * 0x1000 + c / 0x40 % 0x40 * 0x40 + c % 0x40 == c
    ensures c / 0x40000 * 0x40000 + c / 0x1000 % 0x40 * 0x1000 + c / 0x40 % 0x40 * 0x40 + c % 0x40 == c
  {
    assert c / 0x1000 == c / 0x40 / 0x40 && c / 0x40000 == c / 0x1000 / 0x40;
  }

  /** The character is whole behind one octet, as it is alone. */
  lemma Shifted(a: Byte, e: seq<Byte>)
    requires e != [] && CharAt(e, 0) && Width(e[0]) == |e|
    ensures CharAt([a] + e, 1) && DecodeAt([a] + e, 1) == DecodeAt(e, 0)
  {
    var s := [a] + e;
    assert forall k :: 0 <= k < |e| ==> s[k + 1] == e[k];
  }

  lemma EncodedAt(a: Byte, c: Scalar)
    requires c >= 0x80
    ensures var s := [a] + Encode(c); CharAt(s, 1) && DecodeAt(s, 1) == c && s[1] > 127
  {
    var e := Encode(c);
    EncodeStarts(c, []);
    assert e + [] == e;
    DecodeEncoded(c);
    Shifted(a, e);
    hide DecodeAt, CharAt;
    assert e[0] > 127;
  }

  lemma DecodeEncoded(c: Scalar)
    requires c >= 0x80 && CharAt(Encode(c), 0)
    ensures DecodeAt(Encode(c), 0) == c
  {
    Recombined(c);
    hide CharAt;
  }

  /** An exponent: a mark, and perhaps a sign. */
  lemma ExponentGoesOn(d: Byte, mark: Byte, sign: Byte, words: set<string>, alnum: UnicodeTable)
    requires KindAlone(d as char) == NumberLiteral && KindAlone(mark as char) == Identifier && KindAlone(sign as char) != NumberLiteral
    ensures Lexeme([d, mark, sign, d], 0, NumberLiteral, 4, words, alnum) <==> mark as char in "eE" && sign as char in "+-"
  {
    var s := [d, mark, sign, d];
    hide KindAlone;
    MarksAndSigns(d, mark, sign);
    if IsExponentMark(mark) && IsSign(sign) { assert NumberParts(s, 0, 1, 1, 4); }
    if NumberLex(s, 0, 4) {
      var a: nat, b: nat :| NumberParts(s, 0, a, b, 4);
      assert IsDigit(s[0]) && !IsDigit(s[1]) && s[1] != DOT;
      assert a == 1;
      assert b == 1;
    }
  }

  lemma MarksAndSigns(d: Byte, mark: Byte, sign: Byte)
    requires KindAlone(d as char) == NumberLiteral && KindAlone(mark as char) == Identifier && KindAlone(sign as char) != NumberLiteral
    ensures IsDigit(d) && !IsDigit(mark) && mark != DOT && !IsDigit(sign)
    ensures (IsExponentMark(mark) <==> mark as char in "eE") && (IsSign(sign) <==> sign as char in "+-")
  {
  }
}
