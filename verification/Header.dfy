/** The `-- key: value` block at the top of a model: where it ends for the function that strips
    it, the one that parses it, and the one that looks for a name in it. */
module Header {
  import opened Options
  import opened Text

  predicate IsComment(trimmed: string) {
    StartsWith(trimmed, "--")
  }

  /** Blank, or a comment. */
  predicate IsHeaderLine(line: string) {
    Trim(line) == "" || IsComment(Trim(line))
  }

  /** The first line of a non-empty text, and what follows its line ending. */
  function FirstLine(s: string): string {
    var n := Find(s, LF);
    if n == |s| then s else StripCr(s[..n])
  }

  function AfterFirst(s: string): (rest: string)
    ensures |rest| <= |s| && (s != "" ==> |rest| < |s|)
  {
    var n := Find(s, LF);
    if n == |s| then "" else s[n + 1..]
  }

  /** The first line with its ending. */
  function Head(s: string): string {
    s[..|s| - |AfterFirst(s)|]
  }

  /** The text from its first line that is neither blank nor a comment. */
  function Body(s: string): (body: string)
    decreases |s|
  {
    if s != "" && IsHeaderLine(FirstLine(s)) then Body(AfterFirst(s)) else s
  }

  /** The lines before that, with their endings. */
  function Removed(s: string): string
    decreases |s|
  {
    if s != "" && IsHeaderLine(FirstLine(s)) then Head(s) + Removed(AfterFirst(s)) else ""
  }

  // ---- stripping -----------------------------------------------------------------------------------

  lemma LinesStep(s: string)
    requires s != ""
    ensures LinesOf(s) == [FirstLine(s)] + LinesOf(AfterFirst(s))
  {
  }

  lemma HeadAndRest(s: string)
    requires s != ""
    ensures s == Head(s) + AfterFirst(s) && Head(s) != ""
    ensures AfterFirst(s) != "" ==> Head(s)[|Head(s)| - 1] == LF
  {
    var n := Find(s, LF);
    if n < |s| { assert Head(s) == s[..n + 1]; }
  }

  /** A line is followed by nothing, by a line feed, or by both characters of its ending. */
  lemma EndOfLine(s: string)
    requires s != ""
    ensures |FirstLine(s)| <= |s|
    ensures var rest := s[|FirstLine(s)|..];
      AfterFirst(s) == if StartsWith(rest, [CR, LF]) then rest[2..]
                       else if StartsWith(rest, [LF]) || StartsWith(rest, [CR]) then rest[1..]
                       else rest
  {
    var n := Find(s, LF);
    if n < |s| {
      var k := |FirstLine(s)|;
      assert k == n || (k == n - 1 && s[k] == CR);
      assert s[k..][0] == s[k];
    }
  }

  /** The offset of the next line in content, whose line at `at` is `line`. */
  function NextStart(content: string, at: nat, line: string): (r: nat)
    requires at + |line| <= |content|
  {
    var next := at + |line|;
    var rest := content[next..];
    if StartsWith(rest, [CR, LF]) then next + 2
    else if StartsWith(rest, [LF]) || StartsWith(rest, [CR]) then next + 1
    else next
  }

  lemma NextStartIsRest(content: string, at: nat)
    requires at < |content|
    ensures at + |FirstLine(content[at..])| <= |content|
    ensures var next := NextStart(content, at, FirstLine(content[at..]));
      next <= |content| && content[next..] == AfterFirst(content[at..])
  {
    hide FirstLine, AfterFirst;
    var left := content[at..];
    EndOfLine(left);
    var k := |FirstLine(left)|;
    assert left[k..] == content[at + k..];
  }

  method StripHeader(content: string) returns (body: string)
    ensures body == Body(content)
  {
    hide FirstLine, AfterFirst, StripCr, Find, Trim;
    var lines := LinesOf(content);
    var bodyStart, i := 0, 0;
    assert content[0..] == content && lines[0..] == lines;
    while i < |lines|
      invariant 0 <= i <= |lines| && 0 <= bodyStart <= |content|
      invariant lines[i..] == LinesOf(content[bodyStart..]) && Body(content) == Body(content[bodyStart..])
    {
      ghost var left := content[bodyStart..];
      assert left != "";
      LinesStep(left);
      NextStartIsRest(content, bodyStart);
      assert lines[i] == lines[i..][0] == FirstLine(left) && lines[i..][1..] == lines[i + 1..];
      hide LinesOf;
      var trimmed := Trim(lines[i]);
      if trimmed != "" && !StartsWith(trimmed, "--") {
        break;
      }
      bodyStart := NextStart(content, bodyStart, lines[i]);
      i := i + 1;
    }
    body := if bodyStart >= |content| then "" else content[bodyStart..];
  }

  /** What is left starts a line, and that line is not part of a header: nothing was stripped
      too early and nothing more could be. */
  lemma {:induction false} BodyStartsALine(s: string)
    ensures s == Removed(s) + Body(s)
    ensures Body(s) != "" ==> !IsHeaderLine(FirstLine(Body(s)))
    ensures Body(s) != "" && Removed(s) != "" ==> Removed(s)[|Removed(s)| - 1] == LF
    decreases |s|
  {
    hide FirstLine, AfterFirst, Head, IsHeaderLine;
    if s != "" && IsHeaderLine(FirstLine(s)) {
      var rest := AfterFirst(s);
      BodyStartsALine(rest);
      HeadAndRest(s);
      Regroup(Head(s), Removed(rest), Body(rest));
    }
  }

  lemma Regroup(a: string, b: string, c: string)
    ensures a + (b + c) == (a + b) + c
  {
  }

  /** Stripping twice is stripping once. */
  lemma StripIdempotent(s: string)
    ensures Body(Body(s)) == Body(s)
  {
    BodyStartsALine(s);
  }

  // ---- parsing ------------------------------------------------------------------------------------------

  /** The key and value of a comment line, if it has a colon after a non-empty key. `lower` is
      Unicode lower-casing. */
  function Field(lower: string -> string, trimmed: string): Option<(string, string)>
    requires IsComment(trimmed)
  {
    var rest := Trim(trimmed[2..]);
    var colon := Find(rest, ':');
    if colon == |rest| then None
    else
      var key := lower(Trim(rest[..colon]));
      if key == "" then None else Some((key, Trim(rest[colon + 1..])))
  }

  /** A comment made of a key, a colon and a value, with white space around each, is read back
      as the key, lower-cased, and the value. */
  lemma FieldRoundTrip(lower: string -> string, key: string, value: string, a: string, b: string, c: string, d: string)
    requires AllWhite(a) && AllWhite(b) && AllWhite(c) && AllWhite(d) && WhiteAtNoEnd(key) && WhiteAtNoEnd(value)
    requires ':' !in key && key != "" && lower(key) != ""
    requires value == "" ==> c == ""
    ensures var line := "--" + (a + key + b + [':'] + c + value);
      IsComment(line) && Trim(line + d) == line && Field(lower, line) == Some((lower(key), value))
  {
    hide Trim, Find;
    var text := key + b + [':'] + c + value;
    var line := "--" + (a + text);
    assert a + key + b + [':'] + c + value == a + text;
    TextTrimmed(a, key, b, c, value);
    TrimIs("", line, d);
    assert "" + line + d == line + d;
    FieldOfText(lower, line, key, b, c, value);
  }

  lemma TextTrimmed(a: string, key: string, b: string, c: string, value: string)
    requires AllWhite(a) && WhiteAtNoEnd(key) && WhiteAtNoEnd(value) && key != "" && (value == "" ==> c == "")
    ensures var text := key + b + [':'] + c + value;
      Trim(("--" + (a + text))[2..]) == text && WhiteAtNoEnd("--" + (a + text))
  {
    var text := key + b + [':'] + c + value;
    assert ("--" + (a + text))[2..] == a + text == a + text + "";
    assert text[0] == key[0];
    if value == "" { assert text[|text| - 1] == ':'; } else { assert text[|text| - 1] == value[|value| - 1]; }
    TrimIs(a, text, "");
    hide Trim;
  }

  lemma FieldOfText(lower: string -> string, line: string, key: string, b: string, c: string, value: string)
    requires IsComment(line) && Trim(line[2..]) == key + b + [':'] + c + value
    requires AllWhite(b) && AllWhite(c) && WhiteAtNoEnd(key) && WhiteAtNoEnd(value) && ':' !in key && lower(key) != ""
    ensures Field(lower, line) == Some((lower(key), value))
  {
    hide Trim, Find;
    var text := key + b + [':'] + c + value;
    NoColon(b);
    assert text == (key + b) + [':'] + (c + value);
    FindIn(key + b, ':', c + value);
    assert text[..|key + b|] == key + b && text[|key + b| + 1..] == c + value;
    assert "" + key + b == key + b && c + value + "" == c + value;
    TrimIs("", key, b);
    TrimIs(c, value, "");
  }

  lemma NoColon(b: string)
    requires AllWhite(b)
    ensures ':' !in b
  {
  }

  /** The value of the first field with this key among the header lines. */
  function HeaderValue(lower: string -> string, lines: seq<string>, key: string): Option<string> {
    if lines == [] || !IsHeaderLine(lines[0]) then None
    else if Trim(lines[0]) == "" then HeaderValue(lower, lines[1..], key)
    else
      var f := Field(lower, Trim(lines[0]));
      if f.Some? && f.value.0 == key then Some(f.value.1) else HeaderValue(lower, lines[1..], key)
  }

  /** m, and for keys it does not have the fields of the lines. */
  ghost predicate Completes(lower: string -> string, m: map<string, string>, lines: seq<string>, content: seq<string>) {
    forall key :: CompletesAt(lower, m, lines, content, key)
  }

  ghost predicate IsMapOf(lower: string -> string, m: map<string, string>, content: string) {
    forall key :: HeaderValue(lower, LinesOf(content), key) == if key in m then Some(m[key]) else None
  }

  ghost predicate CompletesAt(lower: string -> string, m: map<string, string>, lines: seq<string>, content: seq<string>, key: string) {
    HeaderValue(lower, content, key) == if key in m then Some(m[key]) else HeaderValue(lower, lines, key)
  }

  /** The map holds, for every key, the first value the header gives it, and no other key. */
  method ParseHeaderMap(lower: string -> string, content: string) returns (m: map<string, string>)
    ensures IsMapOf(lower, m, content)
  {
    m := map[];
    var lines := LinesOf(content);
    var i := 0;
    while i < |lines|
      invariant 0 <= i <= |lines| && Completes(lower, m, lines[i..], lines)
    {
      assert lines[i..][0] == lines[i] && lines[i..][1..] == lines[i + 1..];
      var trimmed := Trim(lines[i]);
      if trimmed != "" && !IsComment(trimmed) {
        break;
      }
      ghost var before := m;
      if trimmed != "" {
        var field := Field(lower, trimmed);
        if field.Some? && field.value.0 !in m {
          m := m[field.value.0 := field.value.1];
        }
      }
      i := i + 1;
      forall key ensures CompletesAt(lower, m, lines[i..], lines, key) {
        assert CompletesAt(lower, before, lines[i - 1..], lines, key);
      }
    }
    forall key ensures HeaderValue(lower, LinesOf(content), key) == if key in m then Some(m[key]) else None {
      assert CompletesAt(lower, m, lines[i..], lines, key);
    }
  }

  /** A whole line, with its ending or at the end, is split off the front. */
  lemma LinesOfHead(s: string, more: string)
    requires s != "" && (AfterFirst(s) == "" ==> more == "")
    ensures LinesOf(Head(s) + more) == [FirstLine(s)] + LinesOf(more)
  {
    var n := Find(s, LF);
    if n < |s| {
      var text := s[..n] + [LF] + more;
      assert Head(s) + more == text;
      FindIn(s[..n], LF, more);
      assert text[..n] == s[..n] && text[n + 1..] == more;
    } else {
      assert Head(s) + more == s;
    }
  }

  /** The lines of a text are those of its header and those of its body. */
  lemma {:induction false} LinesOfParts(s: string)
    ensures LinesOf(s) == LinesOf(Removed(s)) + LinesOf(Body(s))
    ensures forall l :: l in LinesOf(Removed(s)) ==> IsHeaderLine(l)
    decreases |s|
  {
    hide FirstLine, AfterFirst, Head, IsHeaderLine;
    if s != "" && IsHeaderLine(FirstLine(s)) {
      var rest := AfterFirst(s);
      LinesOfParts(rest);
      LinesStep(s);
      assert rest == "" ==> Removed(rest) == "";
      LinesOfHead(s, Removed(rest));
      hide LinesOf;
    }
  }

  lemma {:induction false} ValueOfHeaderLines(lower: string -> string, header: seq<string>, rest: seq<string>, key: string)
    requires forall l :: l in header ==> IsHeaderLine(l)
    requires rest != [] ==> !IsHeaderLine(rest[0])
    ensures HeaderValue(lower, header + rest, key) == HeaderValue(lower, header, key)
  {
    if header != [] {
      ValueOfHeaderLines(lower, header[1..], rest, key);
      assert (header + rest)[1..] == header[1..] + rest;
    } else {
      assert header + rest == rest;
    }
  }

  /** Stripping cuts exactly where parsing stops: the map is that of the removed part, and the
      body has none. */
  lemma MapOfRemoved(lower: string -> string, s: string, key: string)
    ensures HeaderValue(lower, LinesOf(s), key) == HeaderValue(lower, LinesOf(Removed(s)), key)
    ensures HeaderValue(lower, LinesOf(Body(s)), key) == None
  {
    LinesOfParts(s);
    BodyStartsALine(s);
    if Body(s) != "" { LinesStep(Body(s)); }
    ValueOfHeaderLines(lower, LinesOf(Removed(s)), LinesOf(Body(s)), key);
  }

  // ---- looking for a name -----------------------------------------------------------------------------------

  predicate IsNameLine(line: string) {
    IsComment(Trim(line)) && StartsWith(Trim(Trim(line)[2..]), "name:")
  }

  /** Some header line is a comment whose text starts with the word name and a colon. */
  predicate HasName(lines: seq<string>) {
    lines != [] && IsHeaderLine(lines[0]) && (IsNameLine(lines[0]) || HasName(lines[1..]))
  }

  method HasHeaderNameField(content: string) returns (found: bool)
    ensures found == HasName(LinesOf(content))
  {
    var lines := LinesOf(content);
    var i := 0;
    while i < |lines|
      invariant 0 <= i <= |lines| && HasName(lines) == HasName(lines[i..])
    {
      assert lines[i..][0] == lines[i] && lines[i..][1..] == lines[i + 1..];
      var trimmed := Trim(lines[i]);
      if trimmed == "" {
        i := i + 1;
        continue;
      }
      if !IsComment(trimmed) {
        break;
      }
      if StartsWith(Trim(trimmed[2..]), "name:") {
        return true;
      }
      i := i + 1;
    }
    found := false;
  }

  lemma NameField(lower: string -> string, trimmed: string)
    requires IsComment(trimmed) && StartsWith(Trim(trimmed[2..]), "name:") && lower("name") == "name"
    ensures Field(lower, trimmed).Some? && Field(lower, trimmed).value.0 == "name"
  {
    var rest := Trim(trimmed[2..]);
    assert rest == "name" + [':'] + rest[5..] by {
      assert rest[..5] == "name:";
    }
    FindIn("name", ':', rest[5..]);
    assert rest[..4] == "name";
    assert Trim("name") == "name";
  }

  /** A file taken to declare a name has the key in its map. */
  lemma {:induction false} NameIsInMap(lower: string -> string, lines: seq<string>)
    requires lower("name") == "name" && HasName(lines)
    ensures HeaderValue(lower, lines, "name").Some?
  {
    if IsNameLine(lines[0]) {
      NameField(lower, Trim(lines[0]));
    } else {
      NameIsInMap(lower, lines[1..]);
    }
  }

  /** A comment line with a colon after, apart from case and white space, the word name. */
  predicate NamesKey(lower: string -> string, line: string) {
    IsComment(Trim(line)) && Field(lower, Trim(line)).Some? && Field(lower, Trim(line)).value.0 == "name"
  }

  /** The text of the comment up to its first colon is exactly the word name. */
  predicate SpelledExactly(line: string) {
    IsComment(Trim(line)) &&
    var rest := Trim(Trim(line)[2..]);
    Find(rest, ':') < |rest| && rest[..Find(rest, ':')] == "name"
  }

  /** The detection reads a line as a name exactly when it is spelled so. */
  lemma IsNameLineIff(line: string)
    ensures IsNameLine(line) <==> SpelledExactly(line)
  {
    if IsComment(Trim(line)) {
      var rest := Trim(Trim(line)[2..]);
      var colon := Find(rest, ':');
      if StartsWith(rest, "name:") {
        assert rest == "name" + [':'] + rest[5..] by {
          assert rest[..5] == "name:";
        }
        FindIn("name", ':', rest[5..]);
        assert rest[..4] == "name";
      }
      if colon < |rest| && rest[..colon] == "name" {
        assert rest[..5] == rest[..4] + [rest[4]];
      }
    }
  }

  lemma SpelledIsNamed(lower: string -> string, line: string)
    requires lower("name") == "name" && SpelledExactly(line)
    ensures NamesKey(lower, line)
  {
    AlreadyTrimmed("name");
  }

  /** The header lines, up to the first that is neither blank nor a comment. */
  function HeaderLines(lines: seq<string>): seq<string> {
    if lines == [] || !IsHeaderLine(lines[0]) then [] else [lines[0]] + HeaderLines(lines[1..])
  }

  ghost predicate SomeNamed(lower: string -> string, lines: seq<string>) {
    exists l :: l in HeaderLines(lines) && NamesKey(lower, l)
  }

  ghost predicate SomeSpelled(lines: seq<string>) {
    exists l :: l in HeaderLines(lines) && SpelledExactly(l)
  }

  lemma {:induction false} NameInMapIff(lower: string -> string, lines: seq<string>)
    ensures HeaderValue(lower, lines, "name").Some? <==> SomeNamed(lower, lines)
  {
    if lines != [] && IsHeaderLine(lines[0]) {
      NameInMapIff(lower, lines[1..]);
      var all, rest := HeaderLines(lines), HeaderLines(lines[1..]);
      assert all == [lines[0]] + rest;
      assert HeaderValue(lower, lines, "name").Some? <==> NamesKey(lower, lines[0]) || HeaderValue(lower, lines[1..], "name").Some?;
      hide NamesKey, HeaderValue, IsHeaderLine;
      assert forall l :: l in all <==> l == lines[0] || l in rest;
    }
  }

  lemma {:induction false} HasNameIff(lines: seq<string>)
    ensures HasName(lines) <==> SomeSpelled(lines)
  {
    if lines != [] && IsHeaderLine(lines[0]) {
      HasNameIff(lines[1..]);
      IsNameLineIff(lines[0]);
      var all, rest := HeaderLines(lines), HeaderLines(lines[1..]);
      assert all == [lines[0]] + rest;
      hide SpelledExactly, IsNameLine, IsHeaderLine;
      assert forall l :: l in all <==> l == lines[0] || l in rest;
    }
  }

  /** The two agree on a header exactly when, if any of its lines names the key, some line
      spells it without capitals and with its colon directly behind it. */
  lemma NameFoundIff(lower: string -> string, lines: seq<string>)
    requires lower("name") == "name"
    ensures (HeaderValue(lower, lines, "name").Some? <==> HasName(lines)) <==> (SomeNamed(lower, lines) ==> SomeSpelled(lines))
  {
    hide NamesKey, HasName, HeaderValue, HeaderLines;
    NameInMapIff(lower, lines);
    HasNameIff(lines);
    if SomeSpelled(lines) {
      var l :| l in HeaderLines(lines) && SpelledExactly(l);
      SpelledIsNamed(lower, l);
    }
  }

  lemma AlreadyTrimmed(s: string)
    requires s != "" && !IsWhite(s[0]) && !IsWhite(s[|s| - 1])
    ensures Trim(s) == s
  {
  }

  /** Overlooked by the detection: a space before the colon. */
  lemma SpaceOverlooked(lower: string -> string)
    requires lower("name") == "name"
    ensures HeaderValue(lower, ["--name :x"], "name") == Some("x") && !HasName(["--name :x"])
  {
    hide Field, Trim, Find;
    AlreadyTrimmed("--name :x");
    AlreadyTrimmed("name :x");
    AlreadyTrimmed("x");
    TrimOneSpace();
    assert "name " + [':'] + "x" == "name :x" && "--" + "name :x" == "--name :x";
    Overlooked(lower, "name ", "x");
  }

  /** And a capital. */
  lemma CapitalOverlooked(lower: string -> string)
    requires lower("Name") == "name"
    ensures HeaderValue(lower, ["--Name:x"], "name") == Some("x") && !HasName(["--Name:x"])
  {
    hide Field, Trim, Find;
    AlreadyTrimmed("--Name:x");
    AlreadyTrimmed("Name:x");
    AlreadyTrimmed("x");
    AlreadyTrimmed("Name");
    assert "Name" + [':'] + "x" == "Name:x" && "--" + "Name:x" == "--Name:x";
    Overlooked(lower, "Name", "x");
  }

  lemma Overlooked(lower: string -> string, key: string, value: string)
    requires ':' !in key && lower(Trim(key)) == "name" && key != "name" && Trim(value) == value
    requires Trim("--" + (key + [':'] + value)) == "--" + (key + [':'] + value) && Trim(key + [':'] + value) == key + [':'] + value
    ensures var lines := ["--" + (key + [':'] + value)]; HeaderValue(lower, lines, "name") == Some(value) && !HasName(lines)
  {
    var rest := key + [':'] + value;
    var line := "--" + rest;
    assert line[..2] == "--" && line[2..] == rest;
    FindIn(key, ':', value);
    assert rest[..|key|] == key && rest[|key| + 1..] == value;
    IsNameLineIff(line);
    assert [line][1..] == [];
    hide Trim, Find, IsNameLine;
  }

  lemma TrimOneSpace()
    ensures Trim("name ") == "name"
  {
    assert "name "[..4] == "name";
  }
}
