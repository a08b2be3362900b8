/** The parts of Rust's string library that the header scanner and the fixer rely on, on
    strings of characters. */
module Text {
  const LF: char := '\n'
  const CR: char := '\r'
  const TAB: char := '\t'

  /** Unicode White_Space, as `char::is_whitespace`. */
  predicate IsWhite(c: char) {
    var n := c as int;
    || 9 <= n <= 13 || n == 0x20 || n == 0x85 || n == 0xA0 || n == 0x1680 || 0x2000 <= n <= 0x200A
    || n == 0x2028 || n == 0x2029 || n == 0x202F || n == 0x205F || n == 0x3000
  }

  /** The 25 characters of the Unicode property White_Space. */
  lemma WhiteSpaces(c: char)
    ensures IsWhite(c) <==>
      c in "\t\n\U{B}\U{C}\r \U{85}\U{A0}\U{1680}\U{2000}\U{2001}\U{2002}\U{2003}\U{2004}\U{2005}\U{2006}\U{2007}\U{2008}\U{2009}\U{200A}\U{2028}\U{2029}\U{202F}\U{205F}\U{3000}"
  {
  }

  function TrimStart(s: string): string {
    if s != "" && IsWhite(s[0]) then TrimStart(s[1..]) else s
  }

  function TrimEnd(s: string): string {
    if s != "" && IsWhite(s[|s| - 1]) then TrimEnd(s[..|s| - 1]) else s
  }

  function Trim(s: string): string {
    TrimEnd(TrimStart(s))
  }

  predicate AllWhite(s: string) {
    forall i :: 0 <= i < |s| ==> IsWhite(s[i])
  }

  predicate WhiteAtNoEnd(s: string) {
    s != "" ==> !IsWhite(s[0]) && !IsWhite(s[|s| - 1])
  }

  lemma {:induction false} TrimEndIs(a: string, b: string)
    requires AllWhite(b) && (a != "" ==> !IsWhite(a[|a| - 1]))
    ensures TrimEnd(a + b) == a
  {
    if b == "" {
      assert a + b == a;
    } else {
      var init, last := b[..|b| - 1], b[|b| - 1];
      assert IsWhite(last);
      assert forall i :: 0 <= i < |init| ==> init[i] == b[i];
      assert (a + b)[..|a + b| - 1] == a + init && (a + b)[|a + b| - 1] == last;
      TrimEndIs(a, init);
    }
  }

  lemma {:induction false} TrimStartIs(a: string, b: string)
    requires AllWhite(a) && (b != "" ==> !IsWhite(b[0]))
    ensures TrimStart(a + b) == b
  {
    if a == "" {
      assert a + b == b;
    } else {
      assert IsWhite(a[0]) && (a + b)[1..] == a[1..] + b && forall i :: 0 <= i < |a[1..]| ==> a[1..][i] == a[i + 1];
      TrimStartIs(a[1..], b);
    }
  }

  lemma {:induction false} AllWhiteTrimmed(s: string)
    requires AllWhite(s)
    ensures TrimStart(s) == ""
  {
    if s != "" {
      assert IsWhite(s[0]) && forall i :: 0 <= i < |s[1..]| ==> s[1..][i] == s[i + 1];
      AllWhiteTrimmed(s[1..]);
    }
  }

  /** Trimming takes off exactly the white space around. */
  lemma TrimIs(a: string, s: string, b: string)
    requires AllWhite(a) && AllWhite(b) && WhiteAtNoEnd(s)
    ensures Trim(a + s + b) == s
  {
    if s == "" {
      AllWhiteTrimmed(a + b);
      assert a + s + b == a + b;
    } else {
      assert a + s + b == a + (s + b);
      TrimStartIs(a, s + b);
      TrimEndIs(s, b);
    }
  }

  predicate StartsWith(s: string, t: string) {
    |t| <= |s| && s[..|t|] == t
  }

  /** The offset of the first c, or the length. */
  function Find(s: string, c: char): (n: nat)
    ensures n <= |s| && c !in s[..n] && (n < |s| ==> s[n] == c)
  {
    if s == "" || s[0] == c then 0
    else
      assert s[1..][..Find(s[1..], c)] == s[1..1 + Find(s[1..], c)];
      assert s[..1 + Find(s[1..], c)] == [s[0]] + s[1..1 + Find(s[1..], c)];
      1 + Find(s[1..], c)
  }

  /** A line without the carriage return of a CR LF ending. */
  function StripCr(s: string): string {
    if s != "" && s[|s| - 1] == CR then s[..|s| - 1] else s
  }

  /** `str::lines`: LF or CR LF ends a line; there is no empty last line. */
  function LinesOf(s: string): seq<string> {
    if s == "" then []
    else
      var n := Find(s, LF);
      if n == |s| then [s] else [StripCr(s[..n])] + LinesOf(s[n + 1..])
  }

  lemma {:induction false} FindIn(s: string, c: char, t: string)
    requires c !in s
    ensures Find(s + [c] + t, c) == |s|
  {
    if s != "" {
      FindIn(s[1..], c, t);
      assert (s + [c] + t)[1..] == s[1..] + [c] + t;
    }
  }
}
