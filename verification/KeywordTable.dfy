/** The lexer's keyword table, and that it is in the order its binary search needs. */
module KeywordTable {
  import opened Keywords
  import opened LexSpec
  import opened SqlLexer
  import opened Utf8

  const WORDS_A_TO_B: seq<string> := [
    "ADD", "ALL", "ALTER", "AND", "ANY", "AS", "ASC", "BEGIN", "BETWEEN", "BIGINT", "BOOLEAN", "BY"]
  const WORDS_C: seq<string> := [
    "CASCADE", "CASE", "CAST", "CHAR", "CHECK", "CLUSTER", "COLUMN", "COMMENT", "COMMIT", "CONSTRAINT",
    "COPY", "COUNT", "CREATE", "CROSS", "CUBE", "CURRENT"]
  const WORDS_D: seq<string> := [
    "DATABASE", "DATE", "DATETIME", "DECIMAL", "DECLARE", "DEFAULT", "DELETE", "DESC", "DESCRIBE",
    "DISTINCT", "DISTRIBUTE", "DIV", "DOUBLE", "DROP"]
  const WORDS_E: seq<string> := [
    "ELSE", "END", "ESCAPE", "EXCEPT", "EXCHANGE", "EXISTS", "EXPLAIN", "EXTENDED", "EXTERNAL"]
  const WORDS_F: seq<string> := [
    "FALSE", "FETCH", "FLOAT", "FOR", "FORMAT", "FROM", "FULL", "FUNCTION"]
  const WORDS_G_TO_H: seq<string> := [
    "GLOBAL", "GRANT", "GROUP", "GROUPING", "HAVING"]
  const WORDS_I_TO_K: seq<string> := [
    "IF", "IN", "INNER", "INSERT", "INT", "INTEGER", "INTERSECT", "INTERVAL", "INTO", "IS", "JOIN", "KEY"]
  const WORDS_L_TO_N: seq<string> := [
    "LATERAL", "LEFT", "LIKE", "LIMIT", "LONG", "MACRO", "MAP", "MATCHED", "MERGE", "MINUS", "NATURAL",
    "NOT", "NULL"]
  const WORDS_O_TO_P: seq<string> := [
    "OF", "ON", "OPTIMIZE", "OR", "ORDER", "OUTER", "OVER", "OVERWRITE", "PARTITION", "PERCENT", "PIVOT",
    "PRIMARY"]
  const WORDS_R: seq<string> := [
    "RANGE", "REBUILD", "REGEXP", "RENAME", "REPLACE", "RESET", "RESTRICT", "REVOKE", "RIGHT", "RLIKE",
    "ROLE", "ROLLBACK", "ROLLUP", "ROW", "ROWS"]
  const WORDS_S: seq<string> := [
    "SCHEMA", "SELECT", "SEMI", "SET", "SHOW", "SMALLINT", "SOME", "SORT", "START", "STRING", "STRUCT", "SYNC"]
  const WORDS_T: seq<string> := [
    "TABLE", "TABLESAMPLE", "TEMP", "TEMPORARY", "THEN", "TIMESTAMP", "TINYINT", "TO", "TRANSFORM",
    "TRIGGER", "TRIM", "TRUE", "TRUNCATE", "TYPE"]
  const WORDS_U: seq<string> := [
    "UNBOUNDED", "UNCACHE", "UNION", "UNIQUE", "UNLOCK", "UNPIVOT", "UNSET", "UPDATE", "USE", "USER", "USING"]
  const WORDS_V_TO_W: seq<string> := [
    "VACUUM", "VALUES", "VARCHAR", "VIEW", "WHEN", "WHERE", "WINDOW", "WITH"]

  const SQL_KEYWORDS: seq<string> :=
    WORDS_A_TO_B + (WORDS_C + (WORDS_D + (WORDS_E + (WORDS_F + (WORDS_G_TO_H + (WORDS_I_TO_K + (WORDS_L_TO_N + (WORDS_O_TO_P + (WORDS_R + (WORDS_S + (WORDS_T + (WORDS_U + (WORDS_V_TO_W)))))))))))))

  /** Ascending, with first characters from lo to hi. */
  ghost predicate Block(t: seq<string>, lo: char, hi: char) {
    Ascending(t) && forall i :: 0 <= i < |t| ==> t[i] != "" && lo <= t[i][0] <= hi
  }

  lemma JoinBlocks(t: seq<string>, u: seq<string>, a: char, b: char, c: char, d: char)
    requires Block(t, a, b) && Block(u, c, d) && a <= b < c <= d
    ensures Block(t + u, a, d)
  {
  }

  /** a and b agree on k characters, and there a ends or has the smaller one. */
  lemma {:induction false} LessAt(a: string, b: string, k: nat)
    requires k <= |a| && k < |b| && a[..k] == b[..k] && (k == |a| || a[k] < b[k])
    ensures Less(a, b)
  {
    if k > 0 {
      assert a[0] == a[..k][0] && b[0] == b[..k][0];
      assert a[..k][1..] == a[1..][..k - 1] && b[..k][1..] == b[1..][..k - 1];
      LessAt(a[1..], b[1..], k - 1);
    }
  }

  ghost predicate Stepwise(t: seq<string>) {
    StepwiseIn(t, 0, |t| - 1)
  }

  ghost predicate StepwiseIn(t: seq<string>, lo: int, hi: int) {
    forall i :: 0 <= lo <= i < hi < |t| ==> Less(t[i], t[i + 1])
  }

  lemma {:induction false} StepwiseAscending(t: seq<string>, i: nat, j: nat)
    requires Stepwise(t) && i < j < |t|
    ensures Less(t[i], t[j])
  {
    if i + 1 < j {
      StepwiseAscending(t, i, j - 1);
      LessOrder(t[i], t[j - 1], t[j]);
    }
  }

  lemma StepwiseBlock(t: seq<string>, lo: char, hi: char)
    requires Stepwise(t) && forall i :: 0 <= i < |t| ==> t[i] != "" && lo <= t[i][0] <= hi
    ensures Block(t, lo, hi)
  {
    forall i, j | 0 <= i < j < |t| ensures Less(t[i], t[j]) {
      StepwiseAscending(t, i, j);
    }
  }

  lemma BlockAToB()
    ensures Block(WORDS_A_TO_B, 'A', 'B')
  {
    hide Less, Block, Ascending;
    LessAt("ADD", "ALL", 1);
    LessAt("ALL", "ALTER", 2);
    LessAt("ALTER", "AND", 1);
    LessAt("AND", "ANY", 2);
    LessAt("ANY", "AS", 1);
    LessAt("AS", "ASC", 2);
    LessAt("ASC", "BEGIN", 0);
    LessAt("BEGIN", "BETWEEN", 2);
    LessAt("BETWEEN", "BIGINT", 1);
    LessAt("BIGINT", "BOOLEAN", 1);
    LessAt("BOOLEAN", "BY", 1);
    StepwiseBlock(WORDS_A_TO_B, 'A', 'B');
  }

  lemma FirstOfC()
    ensures StepwiseIn(WORDS_C, 0, 7)
  {
    hide Less;
    LessAt("CASCADE", "CASE", 3);
    LessAt("CASE", "CAST", 3);
    LessAt("CAST", "CHAR", 1);
    LessAt("CHAR", "CHECK", 2);
    LessAt("CHECK", "CLUSTER", 1);
    LessAt("CLUSTER", "COLUMN", 1);
    LessAt("COLUMN", "COMMENT", 2);
  }

  lemma LastOfC()
    ensures StepwiseIn(WORDS_C, 7, 15)
  {
    hide Less;
    LessAt("COMMENT", "COMMIT", 4);
    LessAt("COMMIT", "CONSTRAINT", 2);
    LessAt("CONSTRAINT", "COPY", 2);
    LessAt("COPY", "COUNT", 2);
    LessAt("COUNT", "CREATE", 1);
    LessAt("CREATE", "CROSS", 2);
    LessAt("CROSS", "CUBE", 1);
    LessAt("CUBE", "CURRENT", 2);
  }

  lemma BlockC()
    ensures Block(WORDS_C, 'C', 'C')
  {
    hide Less, Block, Ascending;
    FirstOfC();
    LastOfC();
    StepwiseBlock(WORDS_C, 'C', 'C');
  }

  lemma FirstOfD()
    ensures StepwiseIn(WORDS_D, 0, 6)
  {
    hide Less;
    LessAt("DATABASE", "DATE", 3);
    LessAt("DATE", "DATETIME", 4);
    LessAt("DATETIME", "DECIMAL", 1);
    LessAt("DECIMAL", "DECLARE", 3);
    LessAt("DECLARE", "DEFAULT", 2);
    LessAt("DEFAULT", "DELETE", 2);
  }

  lemma LastOfD()
    ensures StepwiseIn(WORDS_D, 6, 13)
  {
    hide Less;
    LessAt("DELETE", "DESC", 2);
    LessAt("DESC", "DESCRIBE", 4);
    LessAt("DESCRIBE", "DISTINCT", 1);
    LessAt("DISTINCT", "DISTRIBUTE", 4);
    LessAt("DISTRIBUTE", "DIV", 2);
    LessAt("DIV", "DOUBLE", 1);
    LessAt("DOUBLE", "DROP", 1);
  }

  lemma BlockD()
    ensures Block(WORDS_D, 'D', 'D')
  {
    hide Less, Block, Ascending;
    FirstOfD();
    LastOfD();
    StepwiseBlock(WORDS_D, 'D', 'D');
  }

  lemma BlockE()
    ensures Block(WORDS_E, 'E', 'E')
  {
    hide Less, Block, Ascending;
    LessAt("ELSE", "END", 1);
    LessAt("END", "ESCAPE", 1);
    LessAt("ESCAPE", "EXCEPT", 1);
    LessAt("EXCEPT", "EXCHANGE", 3);
    LessAt("EXCHANGE", "EXISTS", 2);
    LessAt("EXISTS", "EXPLAIN", 2);
    LessAt("EXPLAIN", "EXTENDED", 2);
    LessAt("EXTENDED", "EXTERNAL", 4);
    StepwiseBlock(WORDS_E, 'E', 'E');
  }

  lemma BlockF()
    ensures Block(WORDS_F, 'F', 'F')
  {
    hide Less, Block, Ascending;
    LessAt("FALSE", "FETCH", 1);
    LessAt("FETCH", "FLOAT", 1);
    LessAt("FLOAT", "FOR", 1);
    LessAt("FOR", "FORMAT", 3);
    LessAt("FORMAT", "FROM", 1);
    LessAt("FROM", "FULL", 1);
    LessAt("FULL", "FUNCTION", 2);
    StepwiseBlock(WORDS_F, 'F', 'F');
  }

  lemma BlockGToH()
    ensures Block(WORDS_G_TO_H, 'G', 'H')
  {
    hide Less, Block, Ascending;
    LessAt("GLOBAL", "GRANT", 1);
    LessAt("GRANT", "GROUP", 2);
    LessAt("GROUP", "GROUPING", 5);
    LessAt("GROUPING", "HAVING", 0);
    StepwiseBlock(WORDS_G_TO_H, 'G', 'H');
  }

  lemma BlockIToK()
    ensures Block(WORDS_I_TO_K, 'I', 'K')
  {
    hide Less, Block, Ascending;
    LessAt("IF", "IN", 1);
    LessAt("IN", "INNER", 2);
    LessAt("INNER", "INSERT", 2);
    LessAt("INSERT", "INT", 2);
    LessAt("INT", "INTEGER", 3);
    LessAt("INTEGER", "INTERSECT", 4);
    LessAt("INTERSECT", "INTERVAL", 5);
    LessAt("INTERVAL", "INTO", 3);
    LessAt("INTO", "IS", 1);
    LessAt("IS", "JOIN", 0);
    LessAt("JOIN", "KEY", 0);
    StepwiseBlock(WORDS_I_TO_K, 'I', 'K');
  }

  lemma BlockLToN()
    ensures Block(WORDS_L_TO_N, 'L', 'N')
  {
    hide Less, Block, Ascending;
    LessAt("LATERAL", "LEFT", 1);
    LessAt("LEFT", "LIKE", 1);
    LessAt("LIKE", "LIMIT", 2);
    LessAt("LIMIT", "LONG", 1);
    LessAt("LONG", "MACRO", 0);
    LessAt("MACRO", "MAP", 2);
    LessAt("MAP", "MATCHED", 2);
    LessAt("MATCHED", "MERGE", 1);
    LessAt("MERGE", "MINUS", 1);
    LessAt("MINUS", "NATURAL", 0);
    LessAt("NATURAL", "NOT", 1);
    LessAt("NOT", "NULL", 1);
    StepwiseBlock(WORDS_L_TO_N, 'L', 'N');
  }

  lemma BlockOToP()
    ensures Block(WORDS_O_TO_P, 'O', 'P')
  {
    hide Less, Block, Ascending;
    LessAt("OF", "ON", 1);
    LessAt("ON", "OPTIMIZE", 1);
    LessAt("OPTIMIZE", "OR", 1);
    LessAt("OR", "ORDER", 2);
    LessAt("ORDER", "OUTER", 1);
    LessAt("OUTER", "OVER", 1);
    LessAt("OVER", "OVERWRITE", 4);
    LessAt("OVERWRITE", "PARTITION", 0);
    LessAt("PARTITION", "PERCENT", 1);
    LessAt("PERCENT", "PIVOT", 1);
    LessAt("PIVOT", "PRIMARY", 1);
    StepwiseBlock(WORDS_O_TO_P, 'O', 'P');
  }

  lemma FirstOfR()
    ensures StepwiseIn(WORDS_R, 0, 7)
  {
    hide Less;
    LessAt("RANGE", "REBUILD", 1);
    LessAt("REBUILD", "REGEXP", 2);
    LessAt("REGEXP", "RENAME", 2);
    LessAt("RENAME", "REPLACE", 2);
    LessAt("REPLACE", "RESET", 2);
    LessAt("RESET", "RESTRICT", 3);
    LessAt("RESTRICT", "REVOKE", 2);
  }

  lemma LastOfR()
    ensures StepwiseIn(WORDS_R, 7, 14)
  {
    hide Less;
    LessAt("REVOKE", "RIGHT", 1);
    LessAt("RIGHT", "RLIKE", 1);
    LessAt("RLIKE", "ROLE", 1);
    LessAt("ROLE", "ROLLBACK", 3);
    LessAt("ROLLBACK", "ROLLUP", 4);
    LessAt("ROLLUP", "ROW", 2);
    LessAt("ROW", "ROWS", 3);
  }

  lemma BlockR()
    ensures Block(WORDS_R, 'R', 'R')
  {
    hide Less, Block, Ascending;
    FirstOfR();
    LastOfR();
    StepwiseBlock(WORDS_R, 'R', 'R');
  }

  lemma BlockS()
    ensures Block(WORDS_S, 'S', 'S')
  {
    hide Less, Block, Ascending;
    LessAt("SCHEMA", "SELECT", 1);
    LessAt("SELECT", "SEMI", 2);
    LessAt("SEMI", "SET", 2);
    LessAt("SET", "SHOW", 1);
    LessAt("SHOW", "SMALLINT", 1);
    LessAt("SMALLINT", "SOME", 1);
    LessAt("SOME", "SORT", 2);
    LessAt("SORT", "START", 1);
    LessAt("START", "STRING", 2);
    LessAt("STRING", "STRUCT", 3);
    LessAt("STRUCT", "SYNC", 1);
    StepwiseBlock(WORDS_S, 'S', 'S');
  }

  lemma FirstOfT()
    ensures StepwiseIn(WORDS_T, 0, 6)
  {
    hide Less;
    LessAt("TABLE", "TABLESAMPLE", 5);
    LessAt("TABLESAMPLE", "TEMP", 1);
    LessAt("TEMP", "TEMPORARY", 4);
    LessAt("TEMPORARY", "THEN", 1);
    LessAt("THEN", "TIMESTAMP", 1);
    LessAt("TIMESTAMP", "TINYINT", 2);
  }

  lemma LastOfT()
    ensures StepwiseIn(WORDS_T, 6, 13)
  {
    hide Less;
    LessAt("TINYINT", "TO", 1);
    LessAt("TO", "TRANSFORM", 1);
    LessAt("TRANSFORM", "TRIGGER", 2);
    LessAt("TRIGGER", "TRIM", 3);
    LessAt("TRIM", "TRUE", 2);
    LessAt("TRUE", "TRUNCATE", 3);
    LessAt("TRUNCATE", "TYPE", 1);
  }

  lemma BlockT()
    ensures Block(WORDS_T, 'T', 'T')
  {
    hide Less, Block, Ascending;
    FirstOfT();
    LastOfT();
    StepwiseBlock(WORDS_T, 'T', 'T');
  }

  lemma BlockU()
    ensures Block(WORDS_U, 'U', 'U')
  {
    hide Less, Block, Ascending;
    LessAt("UNBOUNDED", "UNCACHE", 2);
    LessAt("UNCACHE", "UNION", 2);
    LessAt("UNION", "UNIQUE", 3);
    LessAt("UNIQUE", "UNLOCK", 2);
    LessAt("UNLOCK", "UNPIVOT", 2);
    LessAt("UNPIVOT", "UNSET", 2);
    LessAt("UNSET", "UPDATE", 1);
    LessAt("UPDATE", "USE", 1);
    LessAt("USE", "USER", 3);
    LessAt("USER", "USING", 2);
    StepwiseBlock(WORDS_U, 'U', 'U');
  }

  lemma BlockVToW()
    ensures Block(WORDS_V_TO_W, 'V', 'W')
  {
    hide Less, Block, Ascending;
    LessAt("VACUUM", "VALUES", 2);
    LessAt("VALUES", "VARCHAR", 2);
    LessAt("VARCHAR", "VIEW", 1);
    LessAt("VIEW", "WHEN", 0);
    LessAt("WHEN", "WHERE", 3);
    LessAt("WHERE", "WINDOW", 1);
    LessAt("WINDOW", "WITH", 2);
    StepwiseBlock(WORDS_V_TO_W, 'V', 'W');
  }

  /** The table is in strictly ascending order. */
  lemma TableAscending()
    ensures Ascending(SQL_KEYWORDS)
  {
    hide Block, Ascending;
    BlockVToW();
    var words := WORDS_V_TO_W;
    BlockU();
    JoinBlocks(WORDS_U, words, 'U', 'U', 'V', 'W');
    words := WORDS_U + words;
    BlockT();
    JoinBlocks(WORDS_T, words, 'T', 'T', 'U', 'W');
    words := WORDS_T + words;
    BlockS();
    JoinBlocks(WORDS_S, words, 'S', 'S', 'T', 'W');
    words := WORDS_S + words;
    BlockR();
    JoinBlocks(WORDS_R, words, 'R', 'R', 'S', 'W');
    words := WORDS_R + words;
    BlockOToP();
    JoinBlocks(WORDS_O_TO_P, words, 'O', 'P', 'R', 'W');
    words := WORDS_O_TO_P + words;
    BlockLToN();
    JoinBlocks(WORDS_L_TO_N, words, 'L', 'N', 'O', 'W');
    words := WORDS_L_TO_N + words;
    BlockIToK();
    JoinBlocks(WORDS_I_TO_K, words, 'I', 'K', 'L', 'W');
    words := WORDS_I_TO_K + words;
    BlockGToH();
    JoinBlocks(WORDS_G_TO_H, words, 'G', 'H', 'I', 'W');
    words := WORDS_G_TO_H + words;
    BlockF();
    JoinBlocks(WORDS_F, words, 'F', 'F', 'G', 'W');
    words := WORDS_F + words;
    BlockE();
    JoinBlocks(WORDS_E, words, 'E', 'E', 'F', 'W');
    words := WORDS_E + words;
    BlockD();
    JoinBlocks(WORDS_D, words, 'D', 'D', 'E', 'W');
    words := WORDS_D + words;
    BlockC();
    JoinBlocks(WORDS_C, words, 'C', 'C', 'D', 'W');
    words := WORDS_C + words;
    BlockAToB();
    JoinBlocks(WORDS_A_TO_B, words, 'A', 'B', 'C', 'W');
    words := WORDS_A_TO_B + words;
    BlockAscends(words, 'A', 'W');
  }

  lemma BlockAscends(t: seq<string>, lo: char, hi: char)
    requires Block(t, lo, hi)
    ensures Ascending(t)
  {
  }

  /** The lexer as it is: with its own table, nothing is asked of the caller but UTF-8. */
  method TokenizeSql(s: seq<Byte>, alnum: UnicodeTable) returns (tokens: seq<Token>)
    requires ValidUtf8(s)
    ensures Tokenization(s, tokens, KeywordSet(SQL_KEYWORDS), alnum)
  {
    TableAscending();
    tokens := Tokenize(s, SQL_KEYWORDS, alnum);
  }
}
