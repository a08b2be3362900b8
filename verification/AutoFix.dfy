/** `--fix`: the in-place line edits of the check engine, applied from the last line to the
    first, against applying all of them at once to the original lines. */
module AutoFix {
  import opened Options
  import opened Text

  /** Line numbers start at 1; 0 is no line. */
  datatype Diagnostic = Diagnostic(ruleId: string, line: nat, snippet: Option<string>, suggestion: Option<string>)

  // ---- what a rule does to a line ------------------------------------------------------

  predicate EndsWithSemicolon(s: string) {
    s != "" && s[|s| - 1] == ';'
  }

  function DropSemicolons(s: string): string {
    if EndsWithSemicolon(s) then DropSemicolons(s[..|s| - 1]) else s
  }

  function ExpandTabs(s: string): string {
    if s == "" then "" else (if s[0] == TAB then "    " else [s[0]]) + ExpandTabs(s[1..])
  }

  predicate Contains(s: string, t: string) {
    StartsWith(s, t) || (s != "" && Contains(s[1..], t))
  }

  /** `str::replace`: every occurrence from the left, not overlapping; an empty pattern
      matches before every character and at the end. */
  function ReplaceAll(s: string, from: string, to: string): string {
    if from == "" then
      if s == "" then to else to + [s[0]] + ReplaceAll(s[1..], from, to)
    else if s == "" then ""
    else if StartsWith(s, from) then to + ReplaceAll(s[|from|..], from, to)
    else [s[0]] + ReplaceAll(s[1..], from, to)
  }

  /** What SQL007 leaves: all the semicolons at the end are gone, and nothing else. */
  lemma {:induction false} SemicolonsDropped(s: string)
    ensures !EndsWithSemicolon(DropSemicolons(s))
    ensures |DropSemicolons(s)| <= |s| && s[..|DropSemicolons(s)|] == DropSemicolons(s)
    ensures forall i :: |DropSemicolons(s)| <= i < |s| ==> s[i] == ';'
  {
    if EndsWithSemicolon(s) {
      var init := s[..|s| - 1];
      SemicolonsDropped(init);
      assert s[..|DropSemicolons(s)|] == init[..|DropSemicolons(s)|];
    }
  }

  /** Where the character at i of a line goes: three places further for each tab before it. */
  function ExpandedAt(s: string, i: nat): nat
    requires i <= |s|
  {
    i + 3 * multiset(s[..i])[TAB]
  }

  /** What SQL009 leaves: four spaces for each tab, every other character in its order, and so no
      tab. */
  lemma {:induction false} TabsExpanded(s: string)
    ensures TAB !in ExpandTabs(s) && |ExpandTabs(s)| == ExpandedAt(s, |s|)
    ensures forall i :: 0 <= i < |s| ==> ExpandedCorrectly(s, i)
  {
    if s == "" {
      assert s[..0] == "";
    } else {
      TabsExpanded(s[1..]);
      assert s == [s[0]] + s[1..];
      OneFurther(s, |s|);
      hide ExpandedCorrectly, ExpandedAt;
      forall i | 0 <= i < |s| ensures ExpandedCorrectly(s, i) {
        assert i > 0 ==> ExpandedCorrectly(s[1..], i - 1);
        ExpandedStep(s, i);
      }
    }
  }

  lemma ExpandedStep(s: string, i: nat)
    requires i < |s| && (i > 0 ==> ExpandedCorrectly(s[1..], i - 1))
    ensures ExpandedCorrectly(s, i)
  {
    var piece, rest := if s[0] == TAB then "    " else [s[0]], ExpandTabs(s[1..]);
    assert ExpandTabs(s) == piece + rest;
    if i == 0 {
      assert s[..0] == "";
    } else {
      OneFurther(s, i);
      var at := ExpandedAt(s[1..], i - 1);
      hide ExpandTabs, ExpandedAt;
      Further(piece, rest, at);
    }
  }

  lemma Further(piece: string, rest: string, at: nat)
    ensures at < |rest| ==> (piece + rest)[|piece| + at] == rest[at]
    ensures at + 4 <= |rest| ==> (piece + rest)[|piece| + at..|piece| + at + 4] == rest[at..at + 4]
  {
  }

  predicate ExpandedCorrectly(s: string, i: nat)
    requires i < |s|
  {
    var at := ExpandedAt(s, i);
    if s[i] == TAB then at + 4 <= |ExpandTabs(s)| && ExpandTabs(s)[at..at + 4] == "    "
    else at < |ExpandTabs(s)| && ExpandTabs(s)[at] == s[i]
  }

  lemma OneFurther(s: string, i: nat)
    requires 0 < i <= |s|
    ensures ExpandedAt(s, i) == ExpandedAt(s[1..], i - 1) + (if s[0] == TAB then 4 else 1)
  {
    assert s[..i] == [s[0]] + s[1..][..i - 1];
  }

  /** REF004 changes nothing where the snippet does not occur. */
  lemma {:induction false} NothingToReplace(s: string, from: string, to: string)
    requires !Contains(s, from)
    ensures ReplaceAll(s, from, to) == s
  {
    if s != "" {
      NothingToReplace(s[1..], from, to);
    }
  }

  // ---- what REF004 leaves ----------------------------------------------------------------

  predicate OccursAt(s: string, t: string, i: nat) {
    i + |t| <= |s| && s[i..i + |t|] == t
  }

  lemma {:induction false} ContainsIff(s: string, t: string)
    ensures Contains(s, t) <==> exists i: nat :: OccursAt(s, t, i)
  {
    assert StartsWith(s, t) <==> OccursAt(s, t, 0);
    if s != "" {
      ContainsIff(s[1..], t);
      assert forall i: nat :: OccursAt(s[1..], t, i) ==> OccursAt(s, t, i + 1);
      assert forall i: nat :: i > 0 && OccursAt(s, t, i) ==> OccursAt(s[1..], t, i - 1);
    }
  }

  /** The parts, with sep between each and the next. */
  function Interleaved(parts: seq<string>, sep: string): string
    requires parts != []
  {
    if |parts| == 1 then parts[0] else parts[0] + sep + Interleaved(parts[1..], sep)
  }

  /** Up to the end of part and the snippet after it, the snippet is nowhere but there. */
  predicate FirstAtEnd(part: string, t: string) {
    forall i :: 0 <= i < |part| ==> !OccursAt(part + t, t, i)
  }

  predicate OccursNowhere(part: string, t: string) {
    forall i :: 0 <= i <= |part| ==> !OccursAt(part, t, i)
  }

  /** The line cut at the snippets, from the left. */
  predicate IsCut(s: string, t: string, parts: seq<string>) {
    && parts != [] && s == Interleaved(parts, t)
    && (forall i :: 0 <= i < |parts| - 1 ==> FirstAtEnd(parts[i], t))
    && OccursNowhere(parts[|parts| - 1], t)
  }

  /** Every snippet, from the left, is replaced by the suggestion, and nothing else is changed. */
  lemma {:induction false} ReplacedEverywhere(s: string, t: string, to: string) returns (parts: seq<string>)
    requires t != ""
    ensures IsCut(s, t, parts) && ReplaceAll(s, t, to) == Interleaved(parts, to)
    decreases |s|
  {
    hide Interleaved, IsCut, ReplaceAll, StartsWith;
    ReplaceStep(s, t, to);
    if s == "" {
      parts := [""];
      NothingToCut(t, to);
    } else if StartsWith(s, t) {
      assert |t| <= |s| by { CutShorter(s, t); }
      var rest := ReplacedEverywhere(s[|t|..], t, to);
      parts := [""] + rest;
      CutHere(s, t, to, rest);
    } else {
      var rest := ReplacedEverywhere(s[1..], t, to);
      CutNotEmpty(s[1..], t, rest);
      parts := [[s[0]] + rest[0]] + rest[1..];
      CutLater(s, t, to, rest);
    }
  }

  lemma CutShorter(s: string, t: string)
    requires StartsWith(s, t)
    ensures |t| <= |s|
  {
  }

  lemma CutNotEmpty(s: string, t: string, parts: seq<string>)
    requires IsCut(s, t, parts)
    ensures parts != []
  {
  }

  lemma ReplaceStep(s: string, t: string, to: string)
    requires t != ""
    ensures s == "" ==> ReplaceAll(s, t, to) == ""
    ensures s != "" && StartsWith(s, t) ==> |t| <= |s| && ReplaceAll(s, t, to) == to + ReplaceAll(s[|t|..], t, to)
    ensures s != "" && !StartsWith(s, t) ==> ReplaceAll(s, t, to) == [s[0]] + ReplaceAll(s[1..], t, to)
  {
  }

  lemma NothingToCut(t: string, to: string)
    requires t != ""
    ensures IsCut("", t, [""]) && Interleaved([""], to) == ""
  {
  }

  lemma Prepended(part: string, rest: seq<string>, sep: string)
    requires rest != []
    ensures Interleaved([part] + rest, sep) == part + sep + Interleaved(rest, sep)
  {
    assert ([part] + rest)[1..] == rest;
  }

  lemma CutHere(s: string, t: string, to: string, rest: seq<string>)
    requires t != "" && StartsWith(s, t) && IsCut(s[|t|..], t, rest)
    ensures IsCut(s, t, [""] + rest) && Interleaved([""] + rest, to) == to + Interleaved(rest, to)
  {
    Prepended("", rest, t);
    Prepended("", rest, to);
    assert s == t + s[|t|..];
    hide Interleaved, OccursAt;
    var parts := [""] + rest;
    assert FirstAtEnd("", t);
    assert forall i :: 1 <= i < |parts| ==> parts[i] == rest[i - 1];
  }

  lemma CutLater(s: string, t: string, to: string, rest: seq<string>)
    requires t != "" && s != "" && !StartsWith(s, t) && IsCut(s[1..], t, rest)
    ensures var parts := [[s[0]] + rest[0]] + rest[1..];
      IsCut(s, t, parts) && Interleaved(parts, to) == [s[0]] + Interleaved(rest, to)
  {
    LongerFirst(s[0], rest, t);
    LongerFirst(s[0], rest, to);
    assert s == [s[0]] + s[1..];
    hide Interleaved, FirstAtEnd, OccursNowhere;
    StillCut(s, t, rest, [[s[0]] + rest[0]] + rest[1..]);
  }

  lemma LongerFirst(c: char, rest: seq<string>, sep: string)
    requires rest != []
    ensures Interleaved([[c] + rest[0]] + rest[1..], sep) == [c] + Interleaved(rest, sep)
  {
    var parts := [[c] + rest[0]] + rest[1..];
    assert parts[1..] == rest[1..];
    if |rest| > 1 { assert ([c] + rest[0]) + sep + Interleaved(rest[1..], sep) == [c] + (rest[0] + sep + Interleaved(rest[1..], sep)); }
  }

  lemma StillCut(s: string, t: string, rest: seq<string>, parts: seq<string>)
    requires s != "" && t != "" && !StartsWith(s, t) && IsCut(s[1..], t, rest)
    requires parts == [[s[0]] + rest[0]] + rest[1..] && s == Interleaved(parts, t)
    ensures IsCut(s, t, parts)
  {
    var first := parts[0];
    if |rest| == 1 {
      forall i | 0 <= i <= |first| ensures !OccursAt(first, t, i) {
        if i > 0 {
          assert !OccursAt(rest[0], t, i - 1);
          assert first[i..] == rest[0][i - 1..];
          LaterOccurrence(s[0], rest[0], t, i);
        }
      }
    } else {
      assert (first + t)[1..] == rest[0] + t && first + t == [s[0]] + (rest[0] + t);
      assert s == (first + t) + Interleaved(parts[1..], t);
      assert (first + t)[0..|t|] == s[..|t|];
      forall i | 0 <= i < |first| ensures !OccursAt(first + t, t, i) {
        if i > 0 {
          assert !OccursAt(rest[0] + t, t, i - 1);
          LaterOccurrence(s[0], rest[0] + t, t, i);
        }
      }
    }
    assert forall i :: 1 <= i < |parts| ==> parts[i] == rest[i];
  }

  lemma LaterOccurrence(c: char, s: string, t: string, i: nat)
    requires i > 0
    ensures OccursAt([c] + s, t, i) <==> OccursAt(s, t, i - 1)
  {
    if i + |t| <= |s| + 1 { assert ([c] + s)[i..i + |t|] == s[i - 1..i - 1 + |t|]; }
  }

  function Letters(s: string): seq<string> {
    if s == "" then [""] else [[s[0]]] + Letters(s[1..])
  }

  lemma {:induction false} LettersInterleaved(s: string, to: string)
    ensures Interleaved(Letters(s), "") == s && ReplaceAll(s, "", to) == to + Interleaved(Letters(s), to)
    ensures |Letters(s)| == |s| + 1 && Letters(s)[|s|] == "" && forall i :: 0 <= i < |s| ==> Letters(s)[i] == [s[i]]
  {
    if s != "" {
      LettersInterleaved(s[1..], to);
      assert Letters(s)[1..] == Letters(s[1..]);
      OneLetter(s[0], to, Interleaved(Letters(s[1..]), to));
    }
  }

  lemma OneLetter(c: char, to: string, rest: string)
    ensures to + [c] + (to + rest) == to + ([c] + to + rest)
  {
  }

  /** An empty snippet is before every character and at the end. */
  lemma EmptyReplaced(s: string, to: string)
    ensures |Letters(s)| == |s| + 1 && Letters(s)[|s|] == "" && forall i :: 0 <= i < |s| ==> Letters(s)[i] == [s[i]]
    ensures Interleaved([""] + Letters(s), "") == s && ReplaceAll(s, "", to) == Interleaved([""] + Letters(s), to)
  {
    hide *;
    LettersInterleaved(s, to);
    Prepended("", Letters(s), "");
    Prepended("", Letters(s), to);
    EmptyFirst("", Interleaved(Letters(s), ""));
    EmptyFirst(to, Interleaved(Letters(s), to));
    EmptyFirst("", Interleaved(Letters(s), ""));
  }

  lemma EmptyFirst(sep: string, rest: string)
    ensures "" + sep + rest == sep + rest && (sep == "" ==> sep + rest == rest)
  {
  }

  datatype Edit = Keep | Change(text: string) | Remove

  function EditOf(d: Diagnostic, line: string): Edit {
    if d.ruleId == "HDR013" then Remove
    else if d.ruleId == "SQL007" then
      if EndsWithSemicolon(TrimEnd(line)) then Change(DropSemicolons(TrimEnd(line))) else Keep
    else if d.ruleId == "SQL009" then
      if TAB in line then Change(ExpandTabs(line)) else Keep
    else if d.ruleId == "REF004" && d.snippet.Some? && d.suggestion.Some? && Contains(line, d.snippet.value) then
      Change(ReplaceAll(line, d.snippet.value, d.suggestion.value))
    else Keep
  }

  /** One fix on the lines as they stand. */
  function FixOne(lines: seq<string>, d: Diagnostic): seq<string> {
    if d.line == 0 || d.line > |lines| then lines
    else
      match EditOf(d, lines[d.line - 1])
      case Keep => lines
      case Change(text) => lines[d.line - 1 := text]
      case Remove => lines[..d.line - 1] + lines[d.line..]
  }

  predicate Changes(lines: seq<string>, d: Diagnostic) {
    1 <= d.line <= |lines| && EditOf(d, lines[d.line - 1]) != Keep
  }

  function FixAll(lines: seq<string>, ds: seq<Diagnostic>): seq<string>
    decreases |ds|
  {
    if ds == [] then lines else FixAll(FixOne(lines, ds[0]), ds[1..])
  }

  // ---- all fixes at once ------------------------------------------------------------------

  /** The diagnostics for line n, in the order given. */
  function OnLine(ds: seq<Diagnostic>, n: nat): seq<Diagnostic> {
    if ds == [] then []
    else (if ds[0].line == n then [ds[0]] else []) + OnLine(ds[1..], n)
  }

  /** What becomes of one original line: nothing, or one line. */
  function FixLine(line: string, ds: seq<Diagnostic>): seq<string>
    decreases |ds|
  {
    if ds == [] then [line]
    else
      match EditOf(ds[0], line)
      case Keep => FixLine(line, ds[1..])
      case Change(text) => FixLine(text, ds[1..])
      case Remove => []
  }

  /** What becomes of the lines after the first m, each by what its own diagnostics make of it. */
  function AtOnce(lines: seq<string>, ds: seq<Diagnostic>, m: nat): seq<string>
    requires m <= |lines|
    decreases |lines| - m
  {
    if m == |lines| then [] else FixLine(lines[m], OnLine(ds, m + 1)) + AtOnce(lines, ds, m + 1)
  }

  /** Every original line replaced by what its own diagnostics make of it. */
  function Simultaneously(lines: seq<string>, ds: seq<Diagnostic>): seq<string> {
    AtOnce(lines, ds, 0)
  }

  predicate Descending(ds: seq<Diagnostic>) {
    forall i, j :: 0 <= i < j < |ds| ==> ds[i].line >= ds[j].line
  }

  predicate IsRemoval(d: Diagnostic) {
    d.ruleId == "HDR013"
  }

  predicate HasRemoval(es: seq<Diagnostic>) {
    es != [] && (IsRemoval(es[0]) || HasRemoval(es[1..]))
  }

  /** What follows the first removal. */
  function Spill(es: seq<Diagnostic>): seq<Diagnostic> {
    if es == [] then [] else if IsRemoval(es[0]) then es[1..] else Spill(es[1..])
  }

  predicate DistinctLines(ds: seq<Diagnostic>) {
    forall i, j :: 0 <= i < j < |ds| ==> ds[i].line != ds[j].line
  }

  lemma {:induction false} OnLineEmpty(ds: seq<Diagnostic>, n: nat)
    requires forall i :: 0 <= i < |ds| ==> ds[i].line != n
    ensures OnLine(ds, n) == []
  {
    if ds != [] { OnLineEmpty(ds[1..], n); }
  }

  lemma {:induction false} OnLineHasLine(ds: seq<Diagnostic>, k: nat)
    ensures forall i :: 0 <= i < |OnLine(ds, k)| ==> OnLine(ds, k)[i].line == k
  {
    if ds != [] { OnLineHasLine(ds[1..], k); }
  }

  // ---- edits of one line number --------------------------------------------------------------

  /** The edits of one line number, on the list that starts there: after a removal they go on
      with the line that has moved up. */
  function Follow(u: seq<string>, es: seq<Diagnostic>): seq<string>
    decreases |es|
  {
    if es == [] || u == [] then u
    else
      match EditOf(es[0], u[0])
      case Keep => Follow(u, es[1..])
      case Change(text) => Follow([text] + u[1..], es[1..])
      case Remove => Follow(u[1..], es[1..])
  }

  lemma FixOneAfter(head: seq<string>, u: seq<string>, d: Diagnostic)
    requires d.line == |head| + 1
    ensures FixOne(head + u, d) == head + Follow(u, [d])
  {
    if u == [] {
      assert head + u == head;
    } else {
      var lines := head + u;
      assert lines[|head|] == u[0] && lines[..|head|] == head && lines[d.line..] == u[1..];
      hide EditOf;
      match EditOf(d, u[0]) {
        case Keep =>
        case Change(text) => assert lines[|head| := text] == head + ([text] + u[1..]);
        case Remove =>
      }
    }
  }

  lemma FollowFirst(u: seq<string>, es: seq<Diagnostic>)
    requires es != []
    ensures Follow(u, es) == Follow(Follow(u, [es[0]]), es[1..])
  {
    hide EditOf;
    assert [es[0]][1..] == [];
  }

  lemma {:induction false} FixAllAfter(head: seq<string>, u: seq<string>, es: seq<Diagnostic>)
    requires forall i :: 0 <= i < |es| ==> es[i].line == |head| + 1
    ensures FixAll(head + u, es) == head + Follow(u, es)
    decreases |es|
  {
    if es != [] {
      FixOneAfter(head, u, es[0]);
      FollowFirst(u, es);
      FixAllAfter(head, Follow(u, [es[0]]), es[1..]);
    }
  }

  lemma {:induction false} FollowJoin(u: seq<string>, es: seq<Diagnostic>, fs: seq<Diagnostic>)
    ensures Follow(u, es + fs) == Follow(Follow(u, es), fs)
    decreases |es|
  {
    if es == [] {
      assert es + fs == fs;
    } else if u != [] {
      assert (es + fs)[1..] == es[1..] + fs;
      FollowFirst(u, es);
      FollowFirst(u, es + fs);
      FollowJoin(Follow(u, [es[0]]), es[1..], fs);
    }
  }

  lemma RemovesOrNot(d: Diagnostic, line: string)
    ensures EditOf(d, line) == Remove <==> IsRemoval(d)
  {
  }

  /** Without a removal the first line alone is edited; otherwise it goes, and what follows the
      removal is done to the rest. */
  lemma {:induction false} FollowIs(line: string, w: seq<string>, es: seq<Diagnostic>)
    ensures FixLine(line, es) == [] <==> HasRemoval(es)
    ensures |FixLine(line, es)| <= 1
    ensures Follow([line] + w, es) == if HasRemoval(es) then Follow(w, Spill(es)) else FixLine(line, es) + w
    decreases |es|
  {
    if es != [] {
      RemovesOrNot(es[0], line);
      assert ([line] + w)[1..] == w;
      hide EditOf, IsRemoval;
      match EditOf(es[0], line) {
        case Keep => FollowIs(line, w, es[1..]);
        case Change(text) => FollowIs(text, w, es[1..]);
        case Remove =>
      }
    }
  }

  lemma {:induction false} FixLineJoin(line: string, es: seq<Diagnostic>, fs: seq<Diagnostic>)
    requires !HasRemoval(es)
    ensures |FixLine(line, es)| == 1
    ensures FixLine(line, es + fs) == FixLine(FixLine(line, es)[0], fs)
    decreases |es|
  {
    if es == [] {
      assert es + fs == fs;
    } else {
      assert (es + fs)[1..] == es[1..] + fs;
      RemovesOrNot(es[0], line);
      hide EditOf, IsRemoval;
      match EditOf(es[0], line) {
        case Keep => FixLineJoin(line, es[1..], fs);
        case Change(text) => FixLineJoin(text, es[1..], fs);
        case Remove =>
      }
    }
  }

  // ---- from the last line to the first ------------------------------------------------------------

  /** What the lines after the first m become in place. */
  function InPlace(lines: seq<string>, ds: seq<Diagnostic>, m: nat): seq<string>
    requires m <= |lines|
    decreases |lines| - m
  {
    if m == |lines| then [] else Follow([lines[m]] + InPlace(lines, ds, m + 1), OnLine(ds, m + 1))
  }

  function Above(ds: seq<Diagnostic>, m: nat): seq<Diagnostic> {
    if ds == [] then [] else (if ds[0].line > m then [ds[0]] else []) + Above(ds[1..], m)
  }

  lemma {:induction false} AboveAll(ds: seq<Diagnostic>, m: nat)
    ensures (forall i :: 0 <= i < |ds| ==> ds[i].line > m) ==> Above(ds, m) == ds
    ensures (forall i :: 0 <= i < |ds| ==> ds[i].line <= m) ==> Above(ds, m) == []
    ensures forall i :: 0 <= i < |Above(ds, m)| ==> Above(ds, m)[i].line > m
  {
    if ds != [] { AboveAll(ds[1..], m); }
  }

  lemma {:induction false} AboveStep(ds: seq<Diagnostic>, m: nat)
    requires Descending(ds)
    ensures Above(ds, m) == Above(ds, m + 1) + OnLine(ds, m + 1)
  {
    if ds != [] {
      var d, rest := ds[0], ds[1..];
      DescendingRest(ds);
      AboveStep(rest, m);
      AboveAll(rest, m + 1);
      hide Above, OnLine, Descending;
      AboveFirst(ds, m);
      AboveFirst(ds, m + 1);
      OnLineFirst(ds, m + 1);
      JoinThree(if d.line > m + 1 then [d] else [], Above(rest, m + 1), OnLine(rest, m + 1));
    }
  }

  lemma DescendingRest(ds: seq<Diagnostic>)
    requires Descending(ds) && ds != []
    ensures Descending(ds[1..]) && forall i :: 0 <= i < |ds[1..]| ==> ds[1..][i].line <= ds[0].line
  {
    assert forall i :: 0 <= i < |ds[1..]| ==> ds[1..][i] == ds[i + 1];
  }

  lemma AboveFirst(ds: seq<Diagnostic>, m: nat)
    requires ds != []
    ensures Above(ds, m) == (if ds[0].line > m then [ds[0]] else []) + Above(ds[1..], m)
  {
  }

  lemma OnLineFirst(ds: seq<Diagnostic>, n: nat)
    requires ds != []
    ensures OnLine(ds, n) == (if ds[0].line == n then [ds[0]] else []) + OnLine(ds[1..], n)
  {
  }

  lemma JoinThree(a: seq<Diagnostic>, b: seq<Diagnostic>, c: seq<Diagnostic>)
    ensures a + (b + c) == (a + b) + c
  {
  }

  lemma {:induction false} FixAllJoin(lines: seq<string>, ds: seq<Diagnostic>, es: seq<Diagnostic>)
    ensures FixAll(lines, ds + es) == FixAll(FixAll(lines, ds), es)
    decreases |ds|
  {
    if ds == [] {
      assert ds + es == es;
    } else {
      assert (ds + es)[1..] == ds[1..] + es;
      FixAllJoin(FixOne(lines, ds[0]), ds[1..], es);
    }
  }

  /** There is no line 0, nor one past the end. */
  lemma {:induction false} OutOfRange(lines: seq<string>, ds: seq<Diagnostic>)
    requires forall i :: 0 <= i < |ds| ==> ds[i].line == 0 || ds[i].line > |lines|
    ensures FixAll(lines, ds) == lines
  {
    if ds != [] { OutOfRange(lines, ds[1..]); }
  }

  /** The diagnostics above m leave the first m lines alone. */
  lemma {:induction false} InPlaceAbove(lines: seq<string>, ds: seq<Diagnostic>, m: nat)
    requires m <= |lines| && Descending(ds)
    ensures FixAll(lines, Above(ds, m)) == lines[..m] + InPlace(lines, ds, m)
    decreases |lines| - m
  {
    hide FixAll, Above, OnLine, Descending;
    if m == |lines| {
      AboveAll(ds, m);
      OutOfRange(lines, Above(ds, m));
      assert lines[..m] + [] == lines;
    } else {
      var w := InPlace(lines, ds, m + 1);
      InPlaceAbove(lines, ds, m + 1);
      AboveStep(ds, m);
      FixAllJoin(lines, Above(ds, m + 1), OnLine(ds, m + 1));
      assert lines[..m + 1] + w == lines[..m] + ([lines[m]] + w);
      OnLineHasLine(ds, m + 1);
      FixAllAfter(lines[..m], [lines[m]] + w, OnLine(ds, m + 1));
    }
  }

  lemma FixAllIsInPlace(lines: seq<string>, ds: seq<Diagnostic>)
    requires Descending(ds)
    ensures FixAll(lines, ds) == InPlace(lines, ds, 0)
  {
    var rest := OnLine(ds, 0);
    InPlaceAbove(lines, ds, 0);
    OnLineHasLine(ds, 0);
    AboveZero(ds);
    hide FixAll, Above, OnLine, InPlace;
    FixAllJoin(lines, Above(ds, 0), rest);
    OutOfRange(FixAll(lines, Above(ds, 0)), rest);
    assert lines[..0] + InPlace(lines, ds, 0) == InPlace(lines, ds, 0);
  }

  lemma {:induction false} AboveZero(ds: seq<Diagnostic>)
    requires Descending(ds)
    ensures ds == Above(ds, 0) + OnLine(ds, 0)
  {
    if ds != [] {
      var d, rest := ds[0], ds[1..];
      AboveZero(rest);
      if d.line == 0 {
        AboveAll(rest, 0);
        assert forall i :: 0 <= i < |rest| ==> rest[i].line <= d.line by {
          assert forall i :: 0 <= i < |rest| ==> rest[i] == ds[i + 1];
        }
        assert Above(rest, 0) == [];
      }
      assert ds == [d] + rest;
    }
  }

  // ---- in place is at once, exactly when ----------------------------------------------------------

  /** Of the lines after the first m, with fs left over from removals before them: the first of
      them that has no removal of its own is not changed by what is left over, once its own
      diagnostics have been applied; and so on behind it. */
  predicate Undisturbed(lines: seq<string>, ds: seq<Diagnostic>, m: nat, fs: seq<Diagnostic>)
    requires m <= |lines|
    decreases |lines| - m
  {
    m == |lines| ||
    var own := OnLine(ds, m + 1);
    if HasRemoval(own) then Undisturbed(lines, ds, m + 1, Spill(own) + fs)
    else FixLine(lines[m], own + fs) == FixLine(lines[m], own) && Undisturbed(lines, ds, m + 1, [])
  }

  lemma {:induction false} FollowIff(lines: seq<string>, ds: seq<Diagnostic>, m: nat, fs: seq<Diagnostic>)
    requires m <= |lines|
    ensures |Follow(InPlace(lines, ds, m), fs)| <= |AtOnce(lines, ds, m)|
    ensures Follow(InPlace(lines, ds, m), fs) == AtOnce(lines, ds, m) <==> Undisturbed(lines, ds, m, fs)
    decreases |lines| - m
  {
    hide Follow, FixLine, OnLine, Spill, HasRemoval;
    if m == |lines| {
      FollowEmpty(fs);
    } else {
      var own, line, w := OnLine(ds, m + 1), lines[m], InPlace(lines, ds, m + 1);
      FollowJoin([line] + w, own, fs);
      FollowIs(line, w, own);
      if HasRemoval(own) {
        FollowJoin(w, Spill(own), fs);
        FollowIff(lines, ds, m + 1, Spill(own) + fs);
        assert [] + AtOnce(lines, ds, m + 1) == AtOnce(lines, ds, m + 1);
      } else {
        FixLineJoin(line, own, fs);
        assert FixLine(line, own) == [FixLine(line, own)[0]];
        FollowNothing(w);
        FollowIff(lines, ds, m + 1, if HasRemoval(fs) then Spill(fs) else []);
        FollowKept(FixLine(line, own)[0], w, fs, AtOnce(lines, ds, m + 1));
      }
    }
  }

  lemma FollowEmpty(fs: seq<Diagnostic>)
    ensures Follow([], fs) == []
  {
  }

  lemma FollowNothing(u: seq<string>)
    ensures Follow(u, []) == u
  {
  }

  lemma FollowKept(x: string, v: seq<string>, fs: seq<Diagnostic>, w: seq<string>)
    requires |if HasRemoval(fs) then Follow(v, Spill(fs)) else v| <= |w|
    ensures |Follow([x] + v, fs)| <= |[x] + w|
    ensures Follow([x] + v, fs) == [x] + w <==> FixLine(x, fs) == [x] && v == w
    ensures HasRemoval(fs) ==> FixLine(x, fs) == []
  {
    FollowIs(x, v, fs);
    hide Follow, FixLine, HasRemoval, Spill;
    if !HasRemoval(fs) { SameOne(x, FixLine(x, fs), v, w); }
  }

  lemma SameOne(x: string, y: seq<string>, v: seq<string>, w: seq<string>)
    requires |y| == 1
    ensures y + v == [x] + w <==> y == [x] && v == w
  {
    assert (y + v)[0] == y[0] && (y + v)[1..] == v && ([x] + w)[0] == x && ([x] + w)[1..] == w;
  }

  /** From the last line to the first, editing in place is editing all at once, exactly when no
      line is disturbed by what follows a removal before it. */
  lemma InPlaceIff(lines: seq<string>, ds: seq<Diagnostic>)
    requires Descending(ds)
    ensures FixAll(lines, ds) == Simultaneously(lines, ds) <==> Undisturbed(lines, ds, 0, [])
  {
    FixAllIsInPlace(lines, ds);
    FollowIff(lines, ds, 0, []);
    assert Follow(InPlace(lines, ds, 0), []) == InPlace(lines, ds, 0);
  }

  /** No line has a diagnostic after one that removes it. Distinct lines are the common case. */
  ghost predicate RemovalsLast(ds: seq<Diagnostic>) {
    forall n :: Spill(OnLine(ds, n)) == []
  }

  /** The rule, with the texts it needs, changes or removes some line. */
  predicate CanAct(d: Diagnostic) {
    d.ruleId in {"HDR013", "SQL007", "SQL009"} || (d.ruleId == "REF004" && d.snippet.Some? && d.suggestion.Some?)
  }

  lemma CanActOrKeeps(d: Diagnostic, line: string)
    ensures !CanAct(d) ==> EditOf(d, line) == Keep
  {
  }

  predicate NoneActs(es: seq<Diagnostic>) {
    forall i :: 0 <= i < |es| ==> !CanAct(es[i])
  }

  /** No line has a diagnostic that can act after one that removes it. */
  ghost predicate NothingActsAfterRemoval(n: nat, ds: seq<Diagnostic>) {
    forall k :: 1 <= k <= n ==> NoneActs(Spill(OnLine(ds, k)))
  }

  lemma {:induction false} NoneActsKeeps(line: string, fs: seq<Diagnostic>)
    requires NoneActs(fs)
    ensures FixLine(line, fs) == [line]
  {
    if fs != [] {
      CanActOrKeeps(fs[0], line);
      NoneActsKeeps(line, fs[1..]);
    }
  }

  lemma {:induction false} NothingActsUndisturbed(lines: seq<string>, ds: seq<Diagnostic>, m: nat, fs: seq<Diagnostic>)
    requires m <= |lines| && NothingActsAfterRemoval(|lines|, ds) && NoneActs(fs)
    ensures Undisturbed(lines, ds, m, fs)
    decreases |lines| - m
  {
    hide CanAct, FixLine, OnLine, HasRemoval, Spill;
    if m < |lines| {
      var own := OnLine(ds, m + 1);
      assert NoneActs(Spill(own)) && NoneActs([]);
      if HasRemoval(own) {
        NothingActsUndisturbed(lines, ds, m + 1, Spill(own) + fs);
      } else {
        FixLineJoin(lines[m], own, fs);
        NoneActsKeeps(FixLine(lines[m], own)[0], fs);
        NothingActsUndisturbed(lines, ds, m + 1, []);
      }
    }
  }

  /** So it is where nothing that can act follows a removal. */
  lemma InPlaceIsSimultaneous(lines: seq<string>, ds: seq<Diagnostic>)
    requires Descending(ds) && NothingActsAfterRemoval(|lines|, ds)
    ensures FixAll(lines, ds) == Simultaneously(lines, ds)
  {
    NothingActsUndisturbed(lines, ds, 0, []);
    InPlaceIff(lines, ds);
  }

  lemma DescendingIsSimultaneous(lines: seq<string>, ds: seq<Diagnostic>)
    requires Descending(ds) && RemovalsLast(ds)
    ensures FixAll(lines, ds) == Simultaneously(lines, ds)
  {
    InPlaceIsSimultaneous(lines, ds);
  }

  /** The first line after the first m that has no removal of its own, or the end. */
  function NextKept(n: nat, ds: seq<Diagnostic>, m: nat): nat
    requires m <= n
    decreases n - m
  {
    if m == n || !HasRemoval(OnLine(ds, m + 1)) then m else NextKept(n, ds, m + 1)
  }

  /** Diagnostics, any number of them, follow a removal on one line m only: exactly when they do
      not change the line that has moved up, as its own diagnostics leave it, if there is one. */
  lemma SpillIff(lines: seq<string>, ds: seq<Diagnostic>, m: nat)
    requires Descending(ds) && 1 <= m <= |lines| && HasRemoval(OnLine(ds, m))
    requires forall n: nat :: n != m ==> Spill(OnLine(ds, n)) == []
    ensures var k, fs := NextKept(|lines|, ds, m), Spill(OnLine(ds, m));
      m <= k <= |lines| &&
      (FixAll(lines, ds) == Simultaneously(lines, ds)
       <==> k == |lines| || FixLine(lines[k], OnLine(ds, k + 1) + fs) == FixLine(lines[k], OnLine(ds, k + 1)))
  {
    hide OnLine, HasRemoval, Spill, FixLine;
    InPlaceIff(lines, ds);
    NothingBefore(lines, ds, 0, m);
    SpillStops(lines, ds, m, Spill(OnLine(ds, m)));
    assert Spill(OnLine(ds, m)) + [] == Spill(OnLine(ds, m));
  }

  /** Up to m nothing is left over. */
  lemma {:induction false} NothingBefore(lines: seq<string>, ds: seq<Diagnostic>, i: nat, m: nat)
    requires i < m <= |lines| && HasRemoval(OnLine(ds, m)) && forall n: nat :: n < m ==> Spill(OnLine(ds, n)) == []
    ensures Undisturbed(lines, ds, i, []) <==> Undisturbed(lines, ds, m, Spill(OnLine(ds, m)) + [])
    decreases m - i
  {
    hide OnLine, HasRemoval, Spill, FixLine;
    var own := OnLine(ds, i + 1);
    assert own + [] == own;
    if i + 1 < m {
      assert Spill(own) + [] == [];
      NothingBefore(lines, ds, i + 1, m);
    }
  }

  lemma {:induction false} SpillStops(lines: seq<string>, ds: seq<Diagnostic>, m: nat, fs: seq<Diagnostic>)
    requires m <= |lines| && forall n: nat :: n > m ==> Spill(OnLine(ds, n)) == []
    ensures var k := NextKept(|lines|, ds, m);
      m <= k <= |lines| &&
      (Undisturbed(lines, ds, m, fs)
       <==> k == |lines| || FixLine(lines[k], OnLine(ds, k + 1) + fs) == FixLine(lines[k], OnLine(ds, k + 1)))
    decreases |lines| - m
  {
    hide OnLine, HasRemoval, Spill, FixLine;
    if m < |lines| {
      if HasRemoval(OnLine(ds, m + 1)) {
        assert [] + fs == fs;
        SpillStops(lines, ds, m + 1, fs);
      } else {
        NothingLeft(lines, ds, m + 1);
      }
    }
  }

  lemma {:induction false} NothingLeft(lines: seq<string>, ds: seq<Diagnostic>, m: nat)
    requires m <= |lines| && forall n: nat :: n > m ==> Spill(OnLine(ds, n)) == []
    ensures Undisturbed(lines, ds, m, [])
    decreases |lines| - m
  {
    hide OnLine, HasRemoval, Spill, FixLine;
    if m < |lines| {
      var own := OnLine(ds, m + 1);
      assert own + [] == own && Spill(own) + [] == [];
      NothingLeft(lines, ds, m + 1);
    }
  }

  /** Only the diagnostics of each line, in their order, matter. */
  lemma {:induction false} SamePerLineSame(lines: seq<string>, ds: seq<Diagnostic>, es: seq<Diagnostic>, m: nat, fs: seq<Diagnostic>)
    requires m <= |lines| && SamePerLine(ds, es)
    ensures AtOnce(lines, ds, m) == AtOnce(lines, es, m)
    ensures Undisturbed(lines, ds, m, fs) == Undisturbed(lines, es, m, fs)
    decreases |lines| - m
  {
    hide FixLine, OnLine, HasRemoval, Spill;
    if m < |lines| {
      var own := OnLine(ds, m + 1);
      SamePerLineSame(lines, ds, es, m + 1, if HasRemoval(own) then Spill(own) + fs else []);
    }
  }

  /** A diagnostic that follows a removal on its line is applied to the next line instead:
      the tab here is not on the line that was reported. */
  lemma RemovalSpills()
    ensures var ds := [Diagnostic("HDR013", 1, None, None), Diagnostic("SQL009", 1, None, None)];
      var lines := ["a", [TAB]];
      Descending(ds) && FixAll(lines, ds) == ["    "] && Simultaneously(lines, ds) == [[TAB]]
  {
    var hdr, sql := Diagnostic("HDR013", 1, None, None), Diagnostic("SQL009", 1, None, None);
    var lines := ["a", [TAB]];
    assert FixOne(lines, hdr) == [[TAB]];
    assert FixOne([[TAB]], sql) == ["    "] by {
      assert ExpandTabs([TAB]) == "    " + ExpandTabs("") == "    ";
    }
    assert [hdr, sql][1..] == [sql] && [sql][1..] == [];
    assert FixAll(lines, [hdr, sql]) == FixAll([[TAB]], [sql]) == FixAll(["    "], []);
    var ds := [hdr, sql];
    assert OnLine([sql], 1) == [sql] && OnLine(ds, 1) == ds;
    OnLineEmpty(ds, 2);
    assert AtOnce(lines, ds, 1) == [[TAB]];
  }

  // ---- sorting the diagnostics ----------------------------------------------------------------

  /** The diagnostics of each line in their given order: the same set, and a stable order. */
  ghost predicate SamePerLine(ds: seq<Diagnostic>, es: seq<Diagnostic>) {
    forall n :: OnLine(ds, n) == OnLine(es, n)
  }

  /** d put before the first diagnostic of a smaller line, after those of its own line. */
  function InsertDescending(ds: seq<Diagnostic>, d: Diagnostic): seq<Diagnostic> {
    if ds == [] || ds[0].line < d.line then [d] + ds
    else [ds[0]] + InsertDescending(ds[1..], d)
  }

  lemma {:induction false} InsertOnLine(ds: seq<Diagnostic>, d: Diagnostic, n: nat)
    requires Descending(ds)
    ensures OnLine(InsertDescending(ds, d), n) == OnLine(ds, n) + (if d.line == n then [d] else [])
  {
    if ds == [] {
      assert OnLine([d], n) == (if d.line == n then [d] else []) + OnLine([], n);
    } else if ds[0].line < d.line {
      assert ([d] + ds)[1..] == ds;
      if d.line == n { OnLineEmpty(ds, n); }
    } else {
      InsertOnLine(ds[1..], d, n);
      var r := [ds[0]] + InsertDescending(ds[1..], d);
      assert r[1..] == InsertDescending(ds[1..], d);
    }
  }

  lemma {:induction false} InsertKeepsOrder(ds: seq<Diagnostic>, d: Diagnostic)
    requires Descending(ds)
    ensures Descending(InsertDescending(ds, d))
    ensures forall i :: 0 <= i < |InsertDescending(ds, d)| ==> InsertDescending(ds, d)[i].line <= (if ds == [] || ds[0].line < d.line then d.line else ds[0].line)
  {
    if ds != [] && ds[0].line >= d.line { InsertKeepsOrder(ds[1..], d); }
  }

  lemma {:induction false} OnLineAppend(ds: seq<Diagnostic>, d: Diagnostic, n: nat)
    ensures OnLine(ds + [d], n) == OnLine(ds, n) + (if d.line == n then [d] else [])
  {
    if ds == [] {
      assert [d][1..] == [];
    } else {
      OnLineAppend(ds[1..], d, n);
      assert (ds + [d])[1..] == ds[1..] + [d];
    }
  }

  /** `sort_by` on the line, descending: a stable sort. */
  method SortDescending(ds: seq<Diagnostic>) returns (sorted: seq<Diagnostic>)
    ensures Descending(sorted) && SamePerLine(sorted, ds)
  {
    sorted := [];
    for i := 0 to |ds|
      invariant Descending(sorted) && SamePerLine(sorted, ds[..i])
    {
      assert ds[..i + 1] == ds[..i] + [ds[i]];
      forall n ensures OnLine(InsertDescending(sorted, ds[i]), n) == OnLine(ds[..i + 1], n) {
        InsertOnLine(sorted, ds[i], n);
        OnLineAppend(ds[..i], ds[i], n);
      }
      InsertKeepsOrder(sorted, ds[i]);
      sorted := InsertDescending(sorted, ds[i]);
    }
    assert ds[..|ds|] == ds;
  }

  // ---- the fixes as they edit the lines of a file -------------------------------------------------

  class FileLines {
    var lines: seq<string>

    constructor (lines: seq<string>)
      ensures this.lines == lines
    {
      this.lines := lines;
    }

    method FixHdr013(d: Diagnostic) returns (changed: bool)
      requires d.ruleId == "HDR013"
      modifies this
      ensures lines == FixOne(old(lines), d) && changed == Changes(old(lines), d)
    {
      if d.line == 0 || d.line > |lines| {
        return false;
      }
      lines := lines[..d.line - 1] + lines[d.line..];
      changed := true;
    }

    method FixSql007(d: Diagnostic) returns (changed: bool)
      requires d.ruleId == "SQL007"
      modifies this
      ensures lines == FixOne(old(lines), d) && changed == Changes(old(lines), d)
    {
      if d.line == 0 || d.line > |lines| {
        return false;
      }
      var trimmed := TrimEnd(lines[d.line - 1]);
      if EndsWithSemicolon(trimmed) {
        lines := lines[d.line - 1 := DropSemicolons(trimmed)];
        changed := true;
      } else {
        changed := false;
      }
    }

    method FixSql009(d: Diagnostic) returns (changed: bool)
      requires d.ruleId == "SQL009"
      modifies this
      ensures lines == FixOne(old(lines), d) && changed == Changes(old(lines), d)
    {
      if d.line == 0 || d.line > |lines| {
        return false;
      }
      if TAB in lines[d.line - 1] {
        lines := lines[d.line - 1 := ExpandTabs(lines[d.line - 1])];
        changed := true;
      } else {
        changed := false;
      }
    }

    method FixRef004(d: Diagnostic) returns (changed: bool)
      requires d.ruleId == "REF004"
      modifies this
      ensures lines == FixOne(old(lines), d) && changed == Changes(old(lines), d)
      ensures changed && d.snippet.value != "" ==> exists parts ::
        IsCut(old(lines)[d.line - 1], d.snippet.value, parts)
        && lines == old(lines)[d.line - 1 := Interleaved(parts, d.suggestion.value)]
    {
      if d.line == 0 || d.line > |lines| {
        return false;
      }
      if d.snippet.None? || d.suggestion.None? {
        return false;
      }
      if Contains(lines[d.line - 1], d.snippet.value) {
        if d.snippet.value != "" {
          ghost var parts := ReplacedEverywhere(lines[d.line - 1], d.snippet.value, d.suggestion.value);
        }
        lines := lines[d.line - 1 := ReplaceAll(lines[d.line - 1], d.snippet.value, d.suggestion.value)];
        changed := true;
      } else {
        changed := false;
      }
    }

    method ApplySingleFix(d: Diagnostic) returns (changed: bool)
      modifies this
      ensures lines == FixOne(old(lines), d) && changed == Changes(old(lines), d)
    {
      if d.ruleId == "HDR013" {
        changed := FixHdr013(d);
      } else if d.ruleId == "SQL007" {
        changed := FixSql007(d);
      } else if d.ruleId == "SQL009" {
        changed := FixSql009(d);
      } else if d.ruleId == "REF004" {
        changed := FixRef004(d);
      } else {
        changed := false;
      }
    }

    /** The loop over one file's diagnostics. Whatever order they come in, the lines end up as
        if every fix had been applied to the original lines at once, exactly when no line is
        disturbed by what follows a removal before it. Nothing is written when nothing changed. */
    method ApplyFixes(ds: seq<Diagnostic>) returns (anyChanged: bool)
      modifies this
      ensures lines == Simultaneously(old(lines), ds) <==> Undisturbed(old(lines), ds, 0, [])
      ensures NothingActsAfterRemoval(|old(lines)|, ds) ==> lines == Simultaneously(old(lines), ds)
      ensures !anyChanged ==> lines == old(lines)
    {
      var sorted := SortDescending(ds);
      anyChanged := false;
      for i := 0 to |sorted|
        invariant FixAll(lines, sorted[i..]) == FixAll(old(lines), sorted)
        invariant !anyChanged ==> lines == old(lines)
      {
        assert sorted[i..][1..] == sorted[i + 1..];
        var changed := ApplySingleFix(sorted[i]);
        if changed {
          anyChanged := true;
        }
      }
      SortedIsSimultaneous(old(lines), ds, sorted);
    }
  }

  lemma SortedIsSimultaneous(lines: seq<string>, ds: seq<Diagnostic>, sorted: seq<Diagnostic>)
    requires Descending(sorted) && SamePerLine(sorted, ds)
    ensures FixAll(lines, sorted) == Simultaneously(lines, ds) <==> Undisturbed(lines, ds, 0, [])
    ensures NothingActsAfterRemoval(|lines|, ds) ==> FixAll(lines, sorted) == Simultaneously(lines, ds)
  {
    InPlaceIff(lines, sorted);
    SamePerLineSame(lines, sorted, ds, 0, []);
    if NothingActsAfterRemoval(|lines|, ds) { NothingActsUndisturbed(lines, ds, 0, []); }
  }

  /** Distinct lines are enough, and then the order of the diagnostics does not matter at all. */
  lemma OrderIrrelevant(lines: seq<string>, ds: seq<Diagnostic>, es: seq<Diagnostic>)
    requires DistinctLines(ds) && DistinctLines(es) && forall d :: d in ds <==> d in es
    ensures RemovalsLast(ds) && RemovalsLast(es)
    ensures Simultaneously(lines, ds) == Simultaneously(lines, es)
  {
    forall n ensures OnLine(ds, n) == OnLine(es, n) {
      AtMostOne(ds, n);
      AtMostOne(es, n);
      var a, b := OnLine(ds, n), OnLine(es, n);
      if a != [] { assert a[0] in b; }
      if b != [] { assert b[0] in a; }
    }
    forall n ensures Spill(OnLine(ds, n)) == [] && Spill(OnLine(es, n)) == [] {
      AtMostOne(ds, n);
      AtMostOne(es, n);
      NothingAfterOne(OnLine(ds, n));
      NothingAfterOne(OnLine(es, n));
    }
    SamePerLineSame(lines, ds, es, 0, []);
  }

  lemma NothingAfterOne(ds: seq<Diagnostic>)
    requires |ds| <= 1
    ensures Spill(ds) == []
  {
  }

  lemma {:induction false} AtMostOne(ds: seq<Diagnostic>, n: nat)
    requires DistinctLines(ds)
    ensures |OnLine(ds, n)| <= 1
    ensures forall d :: d in OnLine(ds, n) <==> d in ds && d.line == n
  {
    if ds != [] {
      assert DistinctLines(ds[1..]);
      AtMostOne(ds[1..], n);
      if ds[0].line == n { OnLineEmpty(ds[1..], n); }
      assert ds == [ds[0]] + ds[1..];
    }
  }

  // ---- writing the file and reading it back -----------------------------------------------------------

  function Joined(lines: seq<string>): string {
    if lines == [] then "" else lines[0] + [LF] + Joined(lines[1..])
  }

  /** The text written: a line feed after every line, and one alone for no lines. */
  function Written(lines: seq<string>): string {
    if lines == [] then [LF] else Joined(lines)
  }

  lemma {:induction false} JoinedAppend(lines: seq<string>, l: string)
    ensures Joined(lines + [l]) == Joined(lines) + (l + [LF])
  {
    if lines == [] {
      assert [l][1..] == [];
    } else {
      JoinedAppend(lines[1..], l);
      assert (lines + [l])[1..] == lines[1..] + [l];
      assert lines[0] + [LF] + (Joined(lines[1..]) + (l + [LF])) == (lines[0] + [LF] + Joined(lines[1..])) + (l + [LF]);
    }
  }

  /** `atomic_write_lines`: separators between the lines, then the last line feed. */
  method WriteLines(lines: seq<string>) returns (text: string)
    ensures text == Written(lines)
  {
    text := "";
    for i := 0 to |lines|
      invariant i == 0 ==> text == ""
      invariant i < |lines| ==> text == Joined(lines[..i])
      invariant i == |lines| > 0 ==> text + [LF] == Joined(lines)
    {
      JoinedAppend(lines[..i], lines[i]);
      assert lines[..i + 1] == lines[..i] + [lines[i]];
      text := text + lines[i];
      if i < |lines| - 1 {
        text := text + [LF];
        assert Joined(lines[..i]) + lines[i] + [LF] == Joined(lines[..i]) + (lines[i] + [LF]);
      } else {
        assert lines[..i + 1] == lines;
      }
    }
    text := text + [LF];
  }

  function Stripped(lines: seq<string>): seq<string> {
    if lines == [] then [] else [StripCr(lines[0])] + Stripped(lines[1..])
  }

  lemma {:induction false} SplitJoined(lines: seq<string>)
    requires forall l :: l in lines ==> LF !in l
    ensures LinesOf(Joined(lines)) == Stripped(lines)
  {
    if lines != [] {
      var rest := Joined(lines[1..]);
      SplitJoined(lines[1..]);
      assert LF !in lines[0];
      FindIn(lines[0], LF, rest);
      var text := lines[0] + [LF] + rest;
      assert text[..|lines[0]|] == lines[0] && text[|lines[0]| + 1..] == rest;
    }
  }

  lemma {:induction false} SplitHasNoLf(s: string)
    ensures forall l :: l in LinesOf(s) ==> LF !in l
    decreases |s|
  {
    if s != "" {
      var n := Find(s, LF);
      if n < |s| { SplitHasNoLf(s[n + 1..]); } else { assert s[..n] == s; }
    }
  }

  predicate EndsInCr(s: string) {
    s != "" && s[|s| - 1] == CR
  }

  lemma {:induction false} StrippedSame(lines: seq<string>)
    ensures Stripped(lines) == lines <==> forall l :: l in lines ==> !EndsInCr(l)
  {
    if lines != [] {
      StrippedSame(lines[1..]);
      assert lines == [lines[0]] + lines[1..];
      assert EndsInCr(lines[0]) ==> |StripCr(lines[0])| < |lines[0]|;
      assert Stripped(lines)[0] == StripCr(lines[0]) && Stripped(lines)[1..] == Stripped(lines[1..]);
    }
  }

  /** Writing a file and splitting it again gives back its lines exactly when there is at
      least one and none contains a line feed or ends in a carriage return. */
  lemma WriteThenSplit(lines: seq<string>)
    ensures LinesOf(Written(lines)) == lines <==> lines != [] && forall l :: l in lines ==> LF !in l && !EndsInCr(l)
  {
    if lines == [] {
      assert Find([LF], LF) == 0;
    } else if forall l :: l in lines ==> LF !in l {
      SplitJoined(lines);
      StrippedSame(lines);
    } else {
      SplitHasNoLf(Joined(lines));
    }
  }
}
