/** A reader for JSON texts without insignificant white space and without fractions or
    exponents (sections 4 to 7 of RFC 8259), and the proof that it recovers every value
    from its canonical text. Two values with the same canonical text are the same value. */
module JsonReader {
  import Text
  import opened Keywords
  import opened CanonicalJson

  datatype Parsed<+T> = Fail | Ok(value: T, rest: string)

  predicate IsDigit(c: char) { '0' <= c <= '9' }

  function DigitValue(c: char): nat
    requires IsDigit(c)
  {
    c as int - '0' as int
  }

  /** Digits are read from the left; acc is the value of those read so far. */
  function ParseDigits(s: string, acc: nat): (nat, string) {
    if s != "" && IsDigit(s[0]) then ParseDigits(s[1..], 10 * acc + DigitValue(s[0])) else (acc, s)
  }

  function ParseNatural(s: string): Parsed<nat> {
    if s == "" || !IsDigit(s[0]) then Fail
    else if s[0] == '0' && |s| > 1 && IsDigit(s[1]) then Fail
    else var (n, rest) := ParseDigits(s, 0); Ok(n, rest)
  }

  function ParseNumber(s: string): Parsed<Json> {
    if s != "" && s[0] == '-' then
      match ParseNatural(s[1..])
      case Ok(n, rest) => var m: int := n; Ok(Number(-m), rest)
      case Fail => Fail
    else
      match ParseNatural(s)
      case Ok(n, rest) => Ok(Number(n), rest)
      case Fail => Fail
  }

  predicate IsHex(c: char) { IsDigit(c) || 'a' <= c <= 'f' || 'A' <= c <= 'F' }

  function HexValue(c: char): nat
    requires IsHex(c)
  {
    if IsDigit(c) then DigitValue(c)
    else if 'a' <= c then c as int - 'a' as int + 10
    else c as int - 'A' as int + 10
  }

  function HexCode(s: string): nat
    requires |s| == 4 && forall i :: 0 <= i < 4 ==> IsHex(s[i])
  {
    HexValue(s[0]) * 0x1000 + HexValue(s[1]) * 0x100 + HexValue(s[2]) * 0x10 + HexValue(s[3])
  }

  /** The character a two-character escape stands for. */
  function SimpleEscape(c: char): Parsed<char> {
    if c == '"' || c == '\\' || c == '/' then Ok(c, "")
    else if c == 'b' then Ok(BACKSPACE, "")
    else if c == 'f' then Ok(FORM_FEED, "")
    else if c == 'n' then Ok(LINE_FEED, "")
    else if c == 'r' then Ok(RETURN, "")
    else if c == 't' then Ok(TABULATOR, "")
    else Fail
  }

  /** The first character of a string's inside: itself, or what an escape stands for.
      Surrogate escapes are not read. */
  function ParseChar(s: string): (r: Parsed<char>)
    requires s != ""
    ensures r.Ok? ==> |r.rest| < |s|
  {
    if s[0] == '"' || s[0] < 32 as char then Fail
    else if s[0] != '\\' then Ok(s[0], s[1..])
    else if |s| < 2 then Fail
    else if s[1] == 'u' then
      if |s| < 6 || !(forall i :: 2 <= i < 6 ==> IsHex(s[i])) then Fail
      else
        var code := HexCode(s[2..6]);
        if 0xD800 <= code < 0xE000 then Fail else Ok(code as char, s[6..])
    else
      match SimpleEscape(s[1])
      case Ok(c, _) => Ok(c, s[2..])
      case Fail => Fail
  }

  /** The inside of a string up to its closing quote. */
  function ParseChars(s: string): (r: Parsed<string>)
    ensures r.Ok? ==> |r.rest| < |s|
    decreases |s|
  {
    if s == "" then Fail
    else if s[0] == '"' then Ok("", s[1..])
    else
      match ParseChar(s)
      case Fail => Fail
      case Ok(c, rest) =>
        match ParseChars(rest)
        case Fail => Fail
        case Ok(t, rest') => Ok([c] + t, rest')
  }

  function ParseString(s: string): (r: Parsed<string>)
    ensures r.Ok? ==> |r.rest| < |s|
  {
    if s != "" && s[0] == '"' then ParseChars(s[1..]) else Fail
  }

  function ParseValue(s: string): (r: Parsed<Json>)
    ensures r.Ok? ==> |r.rest| < |s|
    decreases |s|, 0
  {
    if s == "" then Fail
    else if s[0] == '"' then
      match ParseString(s)
      case Ok(t, rest) => Ok(String(t), rest)
      case Fail => Fail
    else if s[0] == '[' then
      if |s| > 1 && s[1] == ']' then Ok(Array([]), s[2..]) else ParseItems(s[1..], [])
    else if s[0] == '{' then
      if |s| > 1 && s[1] == '}' then Ok(Object(map[]), s[2..]) else ParseFields(s[1..], map[])
    else if Text.StartsWith(s, "null") then Ok(Null, s[4..])
    else if Text.StartsWith(s, "true") then Ok(Bool(true), s[4..])
    else if Text.StartsWith(s, "false") then Ok(Bool(false), s[5..])
    else
      NumberShortens(s);
      ParseNumber(s)
  }

  function ParseItems(s: string, items: seq<Json>): (r: Parsed<Json>)
    ensures r.Ok? ==> |r.rest| < |s|
    decreases |s|, 1
  {
    match ParseValue(s)
    case Fail => Fail
    case Ok(v, rest) =>
      if rest == "" then Fail
      else if rest[0] == ']' then Ok(Array(items + [v]), rest[1..])
      else if rest[0] == ',' then ParseItems(rest[1..], items + [v])
      else Fail
  }

  /** Members of an object; a repeated name is refused. */
  function ParseFields(s: string, fields: map<string, Json>): (r: Parsed<Json>)
    ensures r.Ok? ==> |r.rest| < |s|
    decreases |s|, 1
  {
    match ParseString(s)
    case Fail => Fail
    case Ok(k, afterKey) =>
      if afterKey == "" || afterKey[0] != ':' || k in fields then Fail
      else
        match ParseValue(afterKey[1..])
        case Fail => Fail
        case Ok(v, rest) =>
          if rest == "" then Fail
          else if rest[0] == '}' then Ok(Object(fields[k := v]), rest[1..])
          else if rest[0] == ',' then ParseFields(rest[1..], fields[k := v])
          else Fail
  }

  lemma {:induction false} DigitsShorten(s: string, acc: nat)
    ensures |ParseDigits(s, acc).1| <= |s|
    ensures s != "" && IsDigit(s[0]) ==> |ParseDigits(s, acc).1| < |s|
  {
    if s != "" && IsDigit(s[0]) { DigitsShorten(s[1..], 10 * acc + DigitValue(s[0])); }
  }

  lemma NumberShortens(s: string)
    ensures ParseNumber(s).Ok? ==> |ParseNumber(s).rest| < |s|
  {
    DigitsShorten(s, 0);
    if s != "" { DigitsShorten(s[1..], 0); }
  }

  // ---- round trips --------------------------------------------------------------------

  predicate NoDigitFirst(s: string) {
    s == "" || !IsDigit(s[0])
  }

  lemma {:induction false} DigitsRoundTrip(n: nat, t: string)
    ensures ParseDigits(Digits(n) + t, 0) == ParseDigits(t, n)
  {
    if n < 10 {
      assert (Digits(n) + t)[1..] == t;
    } else {
      DigitsRoundTrip(n / 10, [DigitChar(n % 10)] + t);
      assert Digits(n) + t == Digits(n / 10) + ([DigitChar(n % 10)] + t);
      assert ([DigitChar(n % 10)] + t)[1..] == t;
    }
  }

  /** Digits starts with a digit, and with 0 only for the number 0. */
  lemma {:induction false} DigitsStart(n: nat)
    ensures IsDigit(Digits(n)[0]) && (Digits(n)[0] == '0' ==> n == 0 && |Digits(n)| == 1)
  {
    if n >= 10 { DigitsStart(n / 10); }
  }

  lemma NaturalRoundTrip(n: nat, rest: string)
    requires NoDigitFirst(rest)
    ensures ParseNatural(Digits(n) + rest) == Ok(n, rest)
  {
    DigitsRoundTrip(n, rest);
    DigitsStart(n);
  }

  lemma NumberRoundTrip(n: int, rest: string)
    requires NoDigitFirst(rest)
    ensures ParseNumber(NumberText(n) + rest) == Ok(Number(n), rest)
  {
    if n < 0 {
      NaturalRoundTrip(-n, rest);
      AfterMinus(Digits(-n), rest);
      assert ParseNatural(Digits(-n) + rest) == Ok(-n, rest);
    } else {
      NaturalRoundTrip(n, rest);
      DigitsStart(n);
      assert (NumberText(n) + rest)[0] == Digits(n)[0];
    }
  }

  lemma AfterMinus(digits: string, rest: string)
    ensures ("-" + digits + rest)[0] == '-' && ("-" + digits + rest)[1..] == digits + rest
  {
  }

  /** Control characters are escaped by their code in four hexadecimal digits. */
  lemma CodeRoundTrip(c: char)
    requires c < 32 as char
    ensures var h := ['0', '0', DigitChar(c as int / 16), DigitChar(c as int % 16)];
      (forall i :: 0 <= i < 4 ==> IsHex(h[i])) && HexCode(h) == c as int
  {
    var x, y := c as int / 16, c as int % 16;
    assert HexValue(DigitChar(x)) == x && HexValue(DigitChar(y)) == y;
  }

  lemma CharRoundTrip(c: char, rest: string)
    ensures EscapeChar(c) != "" && (EscapeChar(c) + rest)[0] != '"'
    ensures ParseChar(EscapeChar(c) + rest) == Ok(c, rest)
  {
    var e := EscapeChar(c);
    var s := e + rest;
    assert s[|e|..] == rest;
    if |e| == 6 {
      CodeRoundTrip(c);
      assert s[2..6] == e[2..6] == ['0', '0', DigitChar(c as int / 16), DigitChar(c as int % 16)];
    }
  }

  lemma {:induction false} CharsRoundTrip(s: string, rest: string)
    ensures ParseChars(Escape(s) + (['"'] + rest)) == Ok(s, rest)
  {
    if s == "" {
      assert (Escape(s) + (['"'] + rest))[1..] == rest;
    } else {
      var tail := Escape(s[1..]) + (['"'] + rest);
      CharsRoundTrip(s[1..], rest);
      CharRoundTrip(s[0], tail);
      CharsStep(EscapeChar(s[0]) + tail, s[0], tail, s[1..], rest);
      assert Escape(s) + (['"'] + rest) == EscapeChar(s[0]) + tail;
      assert s == [s[0]] + s[1..];
    }
  }

  lemma CharsStep(text: string, c: char, tail: string, t: string, rest: string)
    requires text != "" && text[0] != '"' && ParseChar(text) == Ok(c, tail) && ParseChars(tail) == Ok(t, rest)
    ensures ParseChars(text) == Ok([c] + t, rest)
  {
  }

  lemma StringRoundTrip(s: string, rest: string)
    ensures ParseString(Quoted(s) + rest) == Ok(s, rest)
  {
    CharsRoundTrip(s, rest);
    var inside := Escape(s) + (['"'] + rest);
    assert Quoted(s) + rest == ['"'] + inside;
    assert (['"'] + inside)[1..] == inside;
  }

  /** Reading undoes writing, in front of anything that does not continue a number. */
  lemma {:induction false} ValueRoundTrip(v: Json, rest: string)
    requires NoDigitFirst(rest)
    ensures ParseValue(Canonical(v) + rest) == Ok(v, rest)
    decreases v, 1
  {
    var s := Canonical(v) + rest;
    match v {
      case Null => assert s[..4] == "null" && s[4..] == rest;
      case Bool(b) =>
        if b { assert s[..4] == "true" && s[4..] == rest; } else { assert s[..5] == "false" && s[5..] == rest; }
      case Number(n) =>
        NumberRoundTrip(n, rest);
        NumberIsNoWord(n, rest);
      case String(t) => StringRoundTrip(t, rest);
      case Array(items) => ArrayRoundTrip(v, rest);
      case Object(m) => ObjectRoundTrip(v, rest);
    }
  }

  lemma NumberIsNoWord(n: int, rest: string)
    ensures var s := NumberText(n) + rest;
      s[0] != '"' && s[0] != '[' && s[0] != '{' && !Text.StartsWith(s, "null") && !Text.StartsWith(s, "true") && !Text.StartsWith(s, "false")
  {
    var s := NumberText(n) + rest;
    DigitsStart(if n < 0 then -n else n);
    assert s[0] == '-' || IsDigit(s[0]);
    assert |s| >= 4 ==> s[..4][0] == s[0];
    assert |s| >= 5 ==> s[..5][0] == s[0];
  }

  lemma CanonicalStart(v: Json)
    ensures Canonical(v) != "" && Canonical(v)[0] != ']'
  {
    match v
    case Number(n) => DigitsStart(if n < 0 then -n else n);
    case _ =>
  }

  lemma ArrayRoundTrip(v: Json, rest: string)
    requires v.Array?
    ensures ParseValue(Canonical(v) + rest) == Ok(v, rest)
    decreases v, 0, |v.items| + 1
  {
    var s := Canonical(v) + rest;
    assert s[1..] == ItemTexts(v, 0) + ([']'] + rest);
    if v.items == [] {
      assert s[2..] == rest;
    } else {
      CanonicalStart(v.items[0]);
      assert s[1] == Canonical(v.items[0])[0];
      ItemsRoundTrip(v, 0, rest);
      var text := Canonical(v.items[0]) + ItemTexts(v, 1);
      assert ItemTexts(v, 0) == text;
      assert s[1..] == text + ([']'] + rest);
    }
  }

  lemma ItemsRoundTrip(v: Json, i: nat, rest: string)
    requires v.Array? && i < |v.items|
    ensures ParseItems(Canonical(v.items[i]) + ItemTexts(v, i + 1) + ([']'] + rest), v.items[..i]) == Ok(v, rest)
    decreases v, 0, |v.items| - i
  {
    var close := [']'] + rest;
    var after := ItemTexts(v, i + 1) + close;
    ValueRoundTrip(v.items[i], after);
    assert Canonical(v.items[i]) + ItemTexts(v, i + 1) + close == Canonical(v.items[i]) + after;
    assert v.items[..i + 1] == v.items[..i] + [v.items[i]];
    if i + 1 < |v.items| {
      ItemsRoundTrip(v, i + 1, rest);
      AfterComma(Canonical(v.items[i + 1]) + ItemTexts(v, i + 2), close);
      ItemsStep(Canonical(v.items[i]) + after, v.items[i], after, v.items[..i]);
    } else {
      assert v.items[..i + 1] == v.items;
      assert after == close && close[1..] == rest;
    }
  }

  lemma AfterComma(text: string, close: string)
    ensures [','] + text + close != "" && ([','] + text + close)[0] == ',' && ([','] + text + close)[1..] == text + close
  {
  }

  lemma ItemsStep(s: string, v: Json, after: string, items: seq<Json>)
    requires ParseValue(s) == Ok(v, after) && after != "" && after[0] == ','
    ensures ParseItems(s, items) == ParseItems(after[1..], items + [v])
  {
  }

  lemma FieldsStep(s: string, k: string, value: string, v: Json, after: string, fields: map<string, Json>)
    requires ParseString(s) == Ok(k, [':'] + value) && k !in fields && ParseValue(value) == Ok(v, after)
    requires after != "" && (after[0] == ',' || after[0] == '}')
    ensures ParseFields(s, fields)
         == if after[0] == ',' then ParseFields(after[1..], fields[k := v]) else Ok(Object(fields[k := v]), after[1..])
  {
    assert ([':'] + value)[1..] == value;
  }

  /** The fields whose keys are among the first i. */
  ghost function FieldsSoFar(v: Json, ks: seq<string>, i: nat): map<string, Json>
    requires v.Object? && i <= |ks|
  {
    map k | k in v.fields && k in ks[..i] :: v.fields[k]
  }

  lemma ObjectRoundTrip(v: Json, rest: string)
    requires v.Object?
    ensures ParseValue(Canonical(v) + rest) == Ok(v, rest)
    decreases v, 0, |SortedKeys(v.fields.Keys)| + 1
  {
    var ks := SortedKeys(v.fields.Keys);
    var close := ['}'] + rest;
    NoKeys(ks, v.fields.Keys);
    if ks == [] {
      assert v.fields == map[];
      assert (['{'] + "" + ['}'] + rest)[2..] == rest;
    } else {
      FieldsRoundTrip(v, ks, 0, rest);
      assert FieldsSoFar(v, ks, 0) == map[];
      OpenBrace(FieldText(v, ks, 0) + close);
      FirstField(v, ks, rest);
    }
  }

  lemma OpenBrace(text: string)
    requires text != "" && text[0] == '"'
    ensures ParseValue(['{'] + text) == ParseFields(text, map[])
  {
    assert (['{'] + text)[1..] == text;
  }

  lemma FirstField(v: Json, ks: seq<string>, rest: string)
    requires v.Object? && ks == SortedKeys(v.fields.Keys) && ks != []
    ensures Canonical(v) + rest == ['{'] + (FieldText(v, ks, 0) + (['}'] + rest))
  {
    assert "" + FieldText(v, ks, 0) == FieldText(v, ks, 0);
    Reassociate(FieldText(v, ks, 0), rest);
  }

  lemma Reassociate(text: string, rest: string)
    ensures ['{'] + text + ['}'] + rest == ['{'] + (text + (['}'] + rest))
  {
  }

  /** The text from field i on, without the comma before it. */
  ghost function FieldText(v: Json, ks: seq<string>, i: nat): string
    requires v.Object? && i < |ks| && forall k :: k in ks ==> k in v.fields
  {
    Quoted(ks[i]) + ([':'] + (Canonical(v.fields[ks[i]]) + FieldTexts(v, ks, i + 1)))
  }

  lemma FieldsRoundTrip(v: Json, ks: seq<string>, i: nat, rest: string)
    requires v.Object? && i < |ks| && SortedKeysOf(ks, v.fields.Keys)
    ensures ParseFields(FieldText(v, ks, i) + (['}'] + rest), FieldsSoFar(v, ks, i)) == Ok(v, rest)
    decreases v, 0, |ks| - i
  {
    var k := ks[i];
    assert k in ks;
    var close := ['}'] + rest;
    var after := FieldTexts(v, ks, i + 1) + close;
    var value := Canonical(v.fields[k]) + after;
    var s := FieldText(v, ks, i) + close;
    FieldSplit(Quoted(k), Canonical(v.fields[k]), FieldTexts(v, ks, i + 1), close);
    StringRoundTrip(k, [':'] + value);
    ValueRoundTrip(v.fields[k], after);
    OneMoreField(v, ks, i);
    if i + 1 < |ks| {
      FieldsRoundTrip(v, ks, i + 1, rest);
      AfterComma(FieldText(v, ks, i + 1), close);
    } else {
      assert after == close && close[1..] == rest;
    }
    FieldsStep(s, k, value, v.fields[k], after, FieldsSoFar(v, ks, i));
  }

  lemma FieldSplit(q: string, value: string, more: string, close: string)
    ensures q + ([':'] + (value + more)) + close == q + ([':'] + (value + (more + close)))
  {
  }

  lemma OneMoreField(v: Json, ks: seq<string>, i: nat)
    requires v.Object? && i < |ks| && SortedKeysOf(ks, v.fields.Keys)
    ensures ks[i] in v.fields && ks[i] !in FieldsSoFar(v, ks, i)
    ensures FieldsSoFar(v, ks, i)[ks[i] := v.fields[ks[i]]] == FieldsSoFar(v, ks, i + 1)
    ensures i + 1 == |ks| ==> FieldsSoFar(v, ks, i + 1) == v.fields
  {
    var k := ks[i];
    assert k in ks;
    if k in ks[..i] {
      var m :| 0 <= m < i && ks[m] == k;
      LessOrder(ks[m], ks[i], k);
    }
    assert ks[..i + 1] == ks[..i] + [k];
    if i + 1 == |ks| { assert ks[..i + 1] == ks; }
  }

  // ---- the configuration hash -----------------------------------------------------------

  /** The canonical text determines the value. */
  lemma CanonicalInjective(v: Json, w: Json)
    ensures Canonical(v) == Canonical(w) <==> v == w
  {
    ValueRoundTrip(v, "");
    ValueRoundTrip(w, "");
    assert Canonical(v) + "" == Canonical(v) && Canonical(w) + "" == Canonical(w);
  }

  /** With a hash that does not collide, configurations have the same hash exactly when they
      are the same. */
  lemma ConfigHashExact<H>(hash: string -> H, v: Json, w: Json)
    requires forall s, t :: hash(s) == hash(t) ==> s == t
    ensures hash(Canonical(v)) == hash(Canonical(w)) <==> v == w
  {
    CanonicalInjective(v, w);
  }
}
