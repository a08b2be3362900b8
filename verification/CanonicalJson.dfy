/** The canonical form behind the configuration hash: a writer with sorted object keys, and
    a reader for the texts of RFC 8259 without insignificant white space that recovers every
    value from its canonical form. */
module CanonicalJson {
  import opened Keywords

  /** JSON values as the configuration serialises to them; its numbers are integers. */
  datatype Json =
    | Null
    | Bool(b: bool)
    | Number(n: int)
    | String(s: string)
    | Array(items: seq<Json>)
    | Object(fields: map<string, Json>)

  // ---- scalars ------------------------------------------------------------------------

  function DigitChar(d: nat): char
    requires d < 16
  {
    "0123456789abcdef"[d]
  }

  function Digits(n: nat): string {
    if n < 10 then [DigitChar(n)] else Digits(n / 10) + [DigitChar(n % 10)]
  }

  function NumberText(n: int): string {
    if n < 0 then "-" + Digits(-n) else Digits(n)
  }

  const BACKSPACE := 8 as char
  const TABULATOR := 9 as char
  const LINE_FEED := 10 as char
  const FORM_FEED := 12 as char
  const RETURN := 13 as char

  /** One character inside a string: section 7 of RFC 8259, shortest escape first. */
  function EscapeChar(c: char): string {
    if c == '"' then ['\\', '"']
    else if c == '\\' then ['\\', '\\']
    else if c == BACKSPACE then ['\\', 'b']
    else if c == FORM_FEED then ['\\', 'f']
    else if c == LINE_FEED then ['\\', 'n']
    else if c == RETURN then ['\\', 'r']
    else if c == TABULATOR then ['\\', 't']
    else if c < 32 as char then ['\\', 'u', '0', '0', DigitChar(c as int / 16), DigitChar(c as int % 16)]
    else [c]
  }

  function Escape(s: string): string {
    if s == "" then "" else EscapeChar(s[0]) + Escape(s[1..])
  }

  function Quoted(s: string): string {
    ['"'] + Escape(s) + ['"']
  }

  /** A character is escaped only if it must be, in two characters if it can be, and else by its
      number, with small letters. */
  lemma EscapeForms(c: char)
    ensures EscapeChar(c) == [c] <==> c >= ' ' && c != '"' && c != '\\'
    ensures EscapeChar('\n') == "\\n" && EscapeChar('\r') == "\\r" && EscapeChar('\t') == "\\t" && EscapeChar('\U{8}') == "\\b" && EscapeChar('\U{C}') == "\\f"
    ensures EscapeChar(c) != [c] ==> |EscapeChar(c)| == if c as int in {0x22, 0x5C, 8, 9, 10, 12, 13} then 2 else 6
    ensures forall i :: 0 <= i < |EscapeChar(c)| && EscapeChar(c) != [c] ==> !('A' <= EscapeChar(c)[i] <= 'F')
  {
  }

  // ---- the canonical text -----------------------------------------------------------------

  ghost predicate StrictlySorted(ks: seq<string>) {
    forall i, j :: 0 <= i < j < |ks| ==> Less(ks[i], ks[j])
  }

  ghost predicate SortedKeysOf(ks: seq<string>, keys: set<string>) {
    StrictlySorted(ks) && forall k :: k in ks <==> k in keys
  }

  /** A set of keys has one sorted sequence. */
  lemma {:induction false} SortedKeysUnique(ks: seq<string>, ls: seq<string>, keys: set<string>)
    requires SortedKeysOf(ks, keys) && SortedKeysOf(ls, keys)
    ensures ks == ls
    decreases |ks|
  {
    NoKeys(ks, keys);
    NoKeys(ls, keys);
    if ks != [] {
      assert ks[0] in ls && ls[0] in ks;
      FirstIsLeast(ks, ls[0]);
      FirstIsLeast(ls, ks[0]);
      LessOrder(ks[0], ls[0], ls[0]);
      TailKeys(ks, keys);
      TailKeys(ls, keys);
      SortedKeysUnique(ks[1..], ls[1..], keys - {ks[0]});
    }
  }

  lemma NoKeys(ks: seq<string>, keys: set<string>)
    requires SortedKeysOf(ks, keys)
    ensures ks == [] <==> keys == {}
  {
    if ks != [] { assert ks[0] in keys; }
    if keys != {} {
      var k :| k in keys;
      assert k in ks;
    }
  }

  lemma FirstIsLeast(ks: seq<string>, k: string)
    requires StrictlySorted(ks) && k in ks
    ensures ks[0] == k || Less(ks[0], k)
  {
  }

  lemma TailKeys(ks: seq<string>, keys: set<string>)
    requires SortedKeysOf(ks, keys) && ks != []
    ensures SortedKeysOf(ks[1..], keys - {ks[0]})
  {
    forall k ensures k in ks[1..] <==> k in keys - {ks[0]} {
      if k in ks[1..] {
        var i :| 1 <= i < |ks| && ks[i] == k;
        LessOrder(ks[0], k, k);
      }
      if k in keys - {ks[0]} {
        var i :| 0 <= i < |ks| && ks[i] == k;
        assert ks[1..][i - 1] == k;
      }
    }
  }

  lemma {:induction false} SortedKeysExist(keys: set<string>) returns (ks: seq<string>)
    ensures SortedKeysOf(ks, keys)
  {
    if keys == {} {
      ks := [];
    } else {
      var k :| k in keys;
      var rest := SortedKeysExist(keys - {k});
      InsertSorted(rest, k);
      ks := InsertKey(rest, k);
    }
  }

  ghost function SortedKeys(keys: set<string>): (ks: seq<string>)
    ensures SortedKeysOf(ks, keys)
  {
    assert exists l :: SortedKeysOf(l, keys) by { var l := SortedKeysExist(keys); }
    var ks :| SortedKeysOf(ks, keys);
    ks
  }

  /** k put where it belongs among sorted keys. */
  function InsertKey(ks: seq<string>, k: string): (r: seq<string>)
    ensures forall l :: l in r <==> l in ks || l == k
  {
    if ks == [] || Less(k, ks[0]) then [k] + ks
    else assert ks == [ks[0]] + ks[1..]; [ks[0]] + InsertKey(ks[1..], k)
  }

  lemma {:induction false} InsertSorted(ks: seq<string>, k: string)
    requires StrictlySorted(ks) && k !in ks
    ensures StrictlySorted(InsertKey(ks, k))
  {
    if ks != [] && !Less(k, ks[0]) {
      LessOrder(k, ks[0], k);
      InsertSorted(ks[1..], k);
      PutFirst(ks[0], InsertKey(ks[1..], k));
    } else if ks != [] {
      forall l | l in ks ensures Less(k, l) {
        LessOrder(k, ks[0], l);
      }
      PutFirst(k, ks);
    }
  }

  lemma PutFirst(k: string, ks: seq<string>)
    requires StrictlySorted(ks) && forall l :: l in ks ==> Less(k, l)
    ensures StrictlySorted([k] + ks)
  {
  }

  ghost function Canonical(v: Json): string
    decreases v, 1
  {
    match v
    case Null => "null"
    case Bool(b) => if b then "true" else "false"
    case Number(n) => NumberText(n)
    case String(s) => Quoted(s)
    case Array(_) => ['['] + ItemTexts(v, 0) + [']']
    case Object(m) => ['{'] + FieldTexts(v, SortedKeys(m.Keys), 0) + ['}']
  }

  ghost function ItemTexts(v: Json, i: nat): string
    requires v.Array? && i <= |v.items|
    decreases v, 0, |v.items| - i
  {
    if i == |v.items| then ""
    else (if i > 0 then [','] else "") + (Canonical(v.items[i]) + ItemTexts(v, i + 1))
  }

  ghost function FieldTexts(v: Json, ks: seq<string>, i: nat): string
    requires v.Object? && i <= |ks| && forall k :: k in ks ==> k in v.fields
    decreases v, 0, |ks| - i
  {
    if i == |ks| then ""
    else (if i > 0 then [','] else "") + (Quoted(ks[i]) + ([':'] + (Canonical(v.fields[ks[i]]) + FieldTexts(v, ks, i + 1))))
  }

  // ---- the writer ----------------------------------------------------------------------------

  class Buffer {
    var text: string

    constructor ()
      ensures text == ""
    {
      text := "";
    }

    method Push(t: string)
      modifies this
      ensures text == old(text) + t
    {
      text := text + t;
    }
  }

  /** The keys in whatever order the map gives them. */
  method CollectKeys(m: map<string, Json>) returns (ks: seq<string>)
    ensures forall k :: k in ks <==> k in m
    ensures forall i, j :: 0 <= i < j < |ks| ==> ks[i] != ks[j]
  {
    ks := [];
    var left := m.Keys;
    while left != {}
      invariant left <= m.Keys
      invariant forall k :: k in ks <==> k in m && k !in left
      invariant forall i, j :: 0 <= i < j < |ks| ==> ks[i] != ks[j]
      decreases left
    {
      var k :| k in left;
      ks := ks + [k];
      left := left - {k};
    }
  }

  method SortKeys(ks: seq<string>) returns (sorted: seq<string>)
    requires forall i, j :: 0 <= i < j < |ks| ==> ks[i] != ks[j]
    ensures StrictlySorted(sorted) && forall k :: k in sorted <==> k in ks
  {
    sorted := [];
    for i := 0 to |ks|
      invariant StrictlySorted(sorted) && forall k :: k in sorted <==> k in ks[..i]
    {
      assert ks[i] !in ks[..i];
      InsertSorted(sorted, ks[i]);
      sorted := InsertKey(sorted, ks[i]);
      assert ks[..i + 1] == ks[..i] + [ks[i]];
    }
    assert ks[..|ks|] == ks;
  }

  /** `write_canonical`: appends the value's text, whatever order its objects list their keys in. */
  method WriteCanonical(v: Json, buf: Buffer)
    modifies buf
    ensures buf.text == old(buf.text) + Canonical(v)
    decreases v, 1
  {
    hide ItemTexts, FieldTexts, SortedKeys;
    match v {
      case Null => buf.Push("null");
      case Bool(b) => buf.Push(if b then "true" else "false");
      case Number(n) => buf.Push(NumberText(n));
      case String(s) => buf.Push(Quoted(s));
      case Array(_) =>
        buf.Push(['[']);
        WriteItems(v, buf);
        buf.Push([']']);
        RegroupBrackets(old(buf.text), ['['], ItemTexts(v, 0), [']']);
      case Object(_) =>
        buf.Push(['{']);
        WriteFields(v, buf);
        buf.Push(['}']);
        RegroupBrackets(old(buf.text), ['{'], FieldTexts(v, SortedKeys(v.fields.Keys), 0), ['}']);
    }
  }

  method WriteItems(v: Json, buf: Buffer)
    requires v.Array?
    modifies buf
    ensures buf.text == old(buf.text) + ItemTexts(v, 0)
    decreases v, 0, 1
  {
    for i := 0 to |v.items|
      invariant buf.text + ItemTexts(v, i) == old(buf.text) + ItemTexts(v, 0)
    {
      WriteItem(v, i, buf);
    }
    assert buf.text + "" == buf.text;
  }

  method WriteItem(v: Json, i: nat, buf: Buffer)
    requires v.Array? && i < |v.items|
    modifies buf
    ensures buf.text + ItemTexts(v, i + 1) == old(buf.text) + ItemTexts(v, i)
    decreases v, 0, 0
  {
    var separator := if i > 0 then [','] else "";
    buf.Push(separator);
    WriteCanonical(v.items[i], buf);
    RegroupItem(old(buf.text), separator, Canonical(v.items[i]), ItemTexts(v, i + 1));
  }

  method WriteFields(v: Json, buf: Buffer)
    requires v.Object?
    modifies buf
    ensures buf.text == old(buf.text) + FieldTexts(v, SortedKeys(v.fields.Keys), 0)
    decreases v, 0, 1
  {
    var unsorted := CollectKeys(v.fields);
    var keys := SortKeys(unsorted);
    SortedKeysUnique(keys, SortedKeys(v.fields.Keys), v.fields.Keys);
    for i := 0 to |keys|
      invariant buf.text + FieldTexts(v, keys, i) == old(buf.text) + FieldTexts(v, keys, 0)
    {
      WriteField(v, keys, i, buf);
    }
    assert buf.text + "" == buf.text;
  }

  method WriteField(v: Json, keys: seq<string>, i: nat, buf: Buffer)
    requires v.Object? && i < |keys| && forall k :: k in keys ==> k in v.fields
    modifies buf
    ensures buf.text + FieldTexts(v, keys, i + 1) == old(buf.text) + FieldTexts(v, keys, i)
    decreases v, 0, 0
  {
    assert keys[i] in keys;
    var separator := if i > 0 then [','] else "";
    buf.Push(separator);
    buf.Push(Quoted(keys[i]));
    buf.Push([':']);
    WriteCanonical(v.fields[keys[i]], buf);
    Regroup(old(buf.text), separator, Quoted(keys[i]), [':'], Canonical(v.fields[keys[i]]), FieldTexts(v, keys, i + 1));
  }

  lemma RegroupBrackets(a: string, b: string, c: string, d: string)
    ensures a + b + c + d == a + (b + c + d)
  {
  }

  lemma RegroupItem(a: string, b: string, c: string, d: string)
    ensures a + b + c + d == a + (b + (c + d))
  {
  }

  lemma Regroup(a: string, b: string, c: string, d: string, e: string, f: string)
    ensures a + b + c + d + e + f == a + (b + (c + (d + (e + f))))
  {
  }

  method CanonicalText(v: Json) returns (text: string)
    ensures text == Canonical(v)
  {
    var buf := new Buffer();
    WriteCanonical(v, buf);
    text := buf.text;
  }
}
