/** The keyword test of the lexer: a binary search, right on any ascending table. */
module Keywords {
  import opened Utf8
  import opened LexSpec

  /** Strict lexicographic order, as Rust compares ASCII strings. */
  predicate Less(a: string, b: string) {
    if b == "" then false
    else if a == "" then true
    else a[0] < b[0] || (a[0] == b[0] && Less(a[1..], b[1..]))
  }

  ghost predicate Ascending(table: seq<string>) {
    forall i, j :: 0 <= i < j < |table| ==> Less(table[i], table[j])
  }

  lemma {:induction false} LessOrder(a: string, b: string, c: string)
    ensures a == b || Less(a, b) || Less(b, a)
    ensures !(Less(a, b) && (a == b || Less(b, a)))
    ensures Less(a, b) && Less(b, c) ==> Less(a, c)
  {
    if a != "" && b != "" {
      LessOrder(a[1..], b[1..], if c == "" then "" else c[1..]);
      assert a == [a[0]] + a[1..] && b == [b[0]] + b[1..];
    }
  }

  /** The octet stands for this character: a small letter for its capital, any other for itself. */
  predicate StandsFor(b: Byte, c: char) {
    if 'a' as int <= b <= 'z' as int then 'A' <= c <= 'Z' && c as int - 'A' as int == b - 'a' as int
    else c as int == b
  }

  /** Letter by letter, the word is the entry, in whatever case it is written. */
  predicate Spells(word: seq<Byte>, entry: string) {
    |word| == |entry| && forall k :: 0 <= k < |word| ==> StandsFor(word[k], entry[k])
  }

  lemma UpperTextSpells(word: seq<Byte>, entry: string)
    ensures UpperText(word) == entry <==> Spells(word, entry)
  {
    if Spells(word, entry) {
      assert forall k :: 0 <= k < |word| ==> StandsFor(word[k], entry[k]) && UpperText(word)[k] == entry[k];
    }
  }

  /** Binary search for the word's upper case among table[lo..hi]. */
  method IsKeyword(table: seq<string>, word: seq<Byte>) returns (found: bool)
    requires Ascending(table)
    ensures found <==> exists i :: 0 <= i < |table| && Spells(word, table[i])
    ensures found <==> UpperText(word) in table
  {
    forall i | 0 <= i < |table| ensures UpperText(word) == table[i] <==> Spells(word, table[i]) {
      UpperTextSpells(word, table[i]);
    }
    hide UpperText, Spells;
    var upper := UpperText(word);
    var lo, hi := 0, |table|;
    while lo < hi
      invariant 0 <= lo <= hi <= |table|
      invariant forall i :: 0 <= i < lo ==> table[i] != upper
      invariant forall i :: hi <= i < |table| ==> table[i] != upper
    {
      var mid := (lo + hi) / 2;
      if table[mid] == upper {
        return true;
      }
      LessOrder(table[mid], upper, upper);
      if Less(table[mid], upper) {
        forall i | lo <= i <= mid ensures table[i] != upper {
          LessOrder(upper, table[mid], table[i]);
        }
        lo := mid + 1;
      } else {
        forall i | mid <= i < hi ensures table[i] != upper {
          LessOrder(upper, table[mid], table[i]);
        }
        hi := mid;
      }
    }
    found := false;
  }
}
