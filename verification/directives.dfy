/**
  Line classification: the three regular expressions of runtests.py lines 50-52,
  tried in the order of lines 54, 67 and 90 on the stripped line.

  A regular expression is not interpreted here; instead each one is matched by
  a small function, and lemmas relate the function to the shape the expression
  describes, including which groups a backtracking matcher picks (greedy
  quantifiers: the longest leading whitespace run first, then the longest group).
 */
module Directives {
  import opened Results
  import opened Text

  /** What a template line asks for. */
  datatype Directive =
    | Loop(kind: string, variable: string)  // #loop{KIND, VAR}
    | Begin(spec: string)                   // #begin{SPEC}
    | End                                   // #end
    | Other                                 // anything else, copied verbatim

  // ---------------------------------------------------------------------------
  // Scanning by position

  /** The first position at or after `from` that is not whitespace, or `|s|`. */
  function SkipSpace(s: string, from: nat): (m: nat)
    requires from <= |s|
    ensures from <= m <= |s|
    ensures forall x :: from <= x < m ==> IsSpace(s[x])
    ensures m < |s| ==> !IsSpace(s[m])
    decreases |s| - from
  {
    if from < |s| && IsSpace(s[from]) then SkipSpace(s, from + 1) else from
  }

  /** The class `[^} ),]`. Tabs and other non-space whitespace are name characters. */
  predicate IsNameChar(c: char) {
    c != '}' && c != ' ' && c != ')' && c != ','
  }

  /** The end of the run of name characters that starts at `from`. */
  function SkipNameChars(s: string, from: nat): (e: nat)
    requires from <= |s|
    ensures from <= e <= |s|
    ensures forall x :: from <= x < e ==> IsNameChar(s[x])
    ensures e < |s| ==> !IsNameChar(s[e])
    decreases |s| - from
  {
    if from < |s| && IsNameChar(s[from]) then SkipNameChars(s, from + 1) else from
  }

  /** The start of the run of space characters (' ' only) that ends at `upto`. */
  function BlankRunStart(s: string, upto: nat): (n: nat)
    requires upto <= |s|
    ensures n <= upto
    ensures forall x :: n <= x < upto ==> s[x] == ' '
    ensures n == 0 || s[n - 1] != ' '
  {
    if upto > 0 && s[upto - 1] == ' ' then BlankRunStart(s, upto - 1) else upto
  }

  predicate SpaceFrom(s: string, from: nat) {
    forall x :: from <= x < |s| ==> IsSpace(s[x])
  }

  // ---------------------------------------------------------------------------
  // `\s*(?P<name>[^} ),]+)\s*`: one of the two names of a loop directive

  /** `segment` read as whitespace `segment[..i]`, name `segment[i..j]`, whitespace `segment[j..]`. */
  ghost predicate NameSplit(segment: string, i: int, j: int) {
    && 0 <= i < j <= |segment|
    && (forall x :: 0 <= x < i ==> IsSpace(segment[x]))
    && (forall x :: i <= x < j ==> IsNameChar(segment[x]))
    && (forall x :: j <= x < |segment| ==> IsSpace(segment[x]))
  }

  /** The reading a backtracking matcher finds first: no other reading has a
      longer leading run, or the same run and a longer name. */
  ghost predicate FirstNameSplit(segment: string, i: int, j: int) {
    && NameSplit(segment, i, j)
    && forall i', j' :: NameSplit(segment, i', j') ==> i' < i || (i' == i && j' <= j)
  }

  /** `name` is the group the name pattern captures from `segment`. */
  ghost predicate ReadsAsName(segment: string, name: string) {
    exists i, j :: FirstNameSplit(segment, i, j) && name == segment[i..j]
  }

  /** The group the name pattern captures from `segment`, or `None` when the
      segment does not match. When the segment is only whitespace the matcher
      backtracks and the name is the last whitespace character that is not a space. */
  function MatchName(segment: string): Option<string>
  {
    var m := SkipSpace(segment, 0);
    if m == |segment| then
      var n := BlankRunStart(segment, |segment|);
      if n == 0 then None else Some(segment[n - 1..n])
    else
      var e := SkipNameChars(segment, m);
      if m < e && SpaceFrom(segment, e) then Some(segment[m..e]) else None
  }

  /** A captured name is the segment's first reading. */
  lemma MatchNameSound(segment: string)
    requires MatchName(segment).Some?
    ensures ReadsAsName(segment, MatchName(segment).value)
  {
    var m := SkipSpace(segment, 0);
    if m == |segment| {
      var p := BlankRunStart(segment, |segment|) - 1;
      assert IsSpace(segment[p]);
      assert NameSplit(segment, p, p + 1);
      forall i', j' | NameSplit(segment, i', j') ensures i' < p || (i' == p && j' <= p + 1) {
        assert IsNameChar(segment[i']);
        if p + 1 < |segment| {
          assert segment[p + 1] == ' ';
        }
      }
      assert FirstNameSplit(segment, p, p + 1);
    } else {
      var e := SkipNameChars(segment, m);
      assert NameSplit(segment, m, e);
      forall i', j' | NameSplit(segment, i', j') ensures i' < m || (i' == m && j' <= e) {
        assert i' <= m;
      }
      assert FirstNameSplit(segment, m, e);
    }
  }

  /** Every segment the name pattern matches yields a name. */
  lemma MatchNameComplete(segment: string, i: int, j: int)
    requires NameSplit(segment, i, j)
    ensures MatchName(segment).Some?
  {
    var m := SkipSpace(segment, 0);
    assert IsNameChar(segment[i]);
    if m == |segment| {
      assert BlankRunStart(segment, |segment|) > i;
    } else {
      assert i <= m < j;
      var e := SkipNameChars(segment, m);
      assert e >= j;
    }
  }

  /** A segment that splits as a name contains no comma. */
  lemma NameSplitNoComma(segment: string, i: int, j: int)
    requires NameSplit(segment, i, j)
    ensures ',' !in segment
  {
    forall x | 0 <= x < |segment| ensures segment[x] != ',' {
      if x < i { assert IsSpace(segment[x]); }
      else if x >= j { assert IsSpace(segment[x]); }
    }
  }

  // ---------------------------------------------------------------------------
  // `\s*(?P<macro>[^}]+)\s*`: the body of a begin directive

  /** `segment` read as whitespace `segment[..i]`, macro `segment[i..j]`, whitespace `segment[j..]`. */
  ghost predicate MacroSplit(segment: string, i: int, j: int) {
    && 0 <= i < j <= |segment|
    && (forall x :: 0 <= x < i ==> IsSpace(segment[x]))
    && (forall x :: i <= x < j ==> segment[x] != '}')
    && (forall x :: j <= x < |segment| ==> IsSpace(segment[x]))
  }

  ghost predicate FirstMacroSplit(segment: string, i: int, j: int) {
    && MacroSplit(segment, i, j)
    && forall i', j' :: MacroSplit(segment, i', j') ==> i' < i || (i' == i && j' <= j)
  }

  /** `spec` is the group the begin pattern captures from `segment`. */
  ghost predicate ReadsAsMacro(segment: string, spec: string) {
    exists i, j :: FirstMacroSplit(segment, i, j) && spec == segment[i..j]
  }

  /** The group the begin pattern captures: the segment without its leading
      whitespace. The macro group also swallows trailing whitespace, so that is
      kept. An all-whitespace segment gives its last character. */
  function MatchMacro(segment: string): Option<string>
  {
    if segment == [] || '}' in segment then None
    else
      var m := SkipSpace(segment, 0);
      Some(if m < |segment| then segment[m..] else segment[|segment| - 1..])
  }

  /** A captured spec is the segment's first reading, and runs to the segment's
      end: trailing whitespace stays in the spec. */
  lemma MatchMacroSound(segment: string)
    requires MatchMacro(segment).Some?
    ensures ReadsAsMacro(segment, MatchMacro(segment).value)
    ensures MatchMacro(segment).value == segment[|segment| - |MatchMacro(segment).value|..]
  {
    var m := SkipSpace(segment, 0);
    var n := |segment|;
    var i := if m < n then m else n - 1;
    forall x | i <= x < n ensures segment[x] != '}' {
      assert segment[x] in segment;
    }
    assert MacroSplit(segment, i, n);
    forall i', j' | MacroSplit(segment, i', j') ensures i' < i || (i' == i && j' <= n) {
      assert i' <= i;
    }
    assert FirstMacroSplit(segment, i, n);
  }

  /** Every segment the begin pattern matches yields a spec. */
  lemma MatchMacroComplete(segment: string, i: int, j: int)
    requires MacroSplit(segment, i, j)
    ensures MatchMacro(segment).Some?
  {
    forall x | 0 <= x < |segment| ensures segment[x] != '}' {
      if x < i { assert IsSpace(segment[x]); }
      else if x >= j { assert IsSpace(segment[x]); }
    }
  }

  // ---------------------------------------------------------------------------
  // The three directives, on a stripped line

  /** `#loop{KIND, VAR}`: the two names, when the line is a loop directive. */
  function MatchLoop(s: string): Option<(string, string)>
  {
    if |s| >= 7 && StartsWith(s, "#loop{") && s[|s| - 1] == '}' then
      var parts := Split(s[6..|s| - 1], ',');
      if |parts| == 2 then
        match (MatchName(parts[0]), MatchName(parts[1]))
        case (Some(kind), Some(name)) => Some((kind, name))
        case _ => None
      else None
    else None
  }

  /** `#begin{SPEC}`: the captured spec, when the line is a begin directive. */
  function MatchBegin(s: string): Option<string>
  {
    if |s| >= 8 && StartsWith(s, "#begin{") && s[|s| - 1] == '}' then MatchMacro(s[7..|s| - 1])
    else None
  }

  /** The line's directive. Patterns are tried on the stripped line in the
      source's order: loop, then begin, then end. The end pattern has no
      end anchor, so any stripped line starting with `#end` closes a block. */
  function Classify(line: string): Directive
  {
    var cleaned := Strip(line);
    match MatchLoop(cleaned)
    case Some((kind, name)) => Loop(kind, name)
    case None =>
      match MatchBegin(cleaned)
      case Some(spec) => Begin(spec)
      case None => if StartsWith(cleaned, "#end") then End else Other
  }

  /** `s` is `#loop{` + a name segment + `,` + a name segment + `}`, and `kind`
      and `name` are those segments' first readings. */
  ghost predicate LoopReading(s: string, kind: string, name: string) {
    && |s| >= 7 && StartsWith(s, "#loop{") && s[|s| - 1] == '}'
    && exists c :: 6 <= c < |s| - 1 && s[c] == ',' && ReadsAsName(s[6..c], kind) && ReadsAsName(s[c + 1..|s| - 1], name)
  }

  /** `s` is `#begin{` + a segment + `}`, and `spec` is that segment's first reading. */
  ghost predicate BeginReading(s: string, spec: string) {
    |s| >= 8 && StartsWith(s, "#begin{") && s[|s| - 1] == '}' && ReadsAsMacro(s[7..|s| - 1], spec)
  }

  lemma MatchLoopSound(s: string)
    requires MatchLoop(s).Some?
    ensures LoopReading(s, MatchLoop(s).value.0, MatchLoop(s).value.1)
  {
    var parts := Split(s[6..|s| - 1], ',');
    LoopSegments(s, parts);
    MatchNameSound(parts[0]);
    MatchNameSound(parts[1]);
  }

  /** Where the two comma-separated pieces of a loop directive's braces sit. */
  lemma LoopSegments(s: string, parts: seq<string>)
    requires |s| >= 7 && parts == Split(s[6..|s| - 1], ',') && |parts| == 2
    ensures var c := 6 + |parts[0]|;
      && 6 <= c < |s| - 1 && s[c] == ','
      && s[6..c] == parts[0] && s[c + 1..|s| - 1] == parts[1]
  {
    var inner := s[6..|s| - 1];
    assert Join(parts[1..], [',']) == parts[1];
    assert inner == parts[0] + [','] + parts[1];
    var c := 6 + |parts[0]|;
    assert s[c] == inner[|parts[0]|];
    assert s[6..c] == parts[0];
    assert s[c + 1..|s| - 1] == parts[1];
  }

  lemma MatchLoopComplete(s: string, left: string, right: string, i1: int, j1: int, i2: int, j2: int)
    requires s == "#loop{" + left + "," + right + "}"
    requires NameSplit(left, i1, j1) && NameSplit(right, i2, j2)
    ensures MatchLoop(s).Some?
  {
    NameSplitNoComma(left, i1, j1);
    NameSplitNoComma(right, i2, j2);
    assert s[..6] == "#loop{";
    assert s[6..|s| - 1] == left + [','] + right;
    assert Join([left, right], [',']) == left + [','] + right by {
      assert [left, right][1..] == [right];
    }
    SplitJoin([left, right], ',');
    MatchNameComplete(left, i1, j1);
    MatchNameComplete(right, i2, j2);
  }

  lemma MatchBeginSound(s: string)
    requires MatchBegin(s).Some?
    ensures BeginReading(s, MatchBegin(s).value)
  {
    MatchMacroSound(s[7..|s| - 1]);
  }

  lemma MatchBeginComplete(s: string, body: string, i: int, j: int)
    requires s == "#begin{" + body + "}"
    requires MacroSplit(body, i, j)
    ensures MatchBegin(s).Some?
  {
    assert s[..7] == "#begin{";
    assert s[7..|s| - 1] == body;
    MatchMacroComplete(body, i, j);
  }

  /** A prefix fixes the characters it covers. */
  lemma StartsWithAt(s: string, prefix: string, i: nat)
    requires i < |prefix|
    ensures StartsWith(s, prefix) ==> i < |s| && s[i] == prefix[i]
  {
    if StartsWith(s, prefix) {
      assert s[..|prefix|][i] == s[i];
    }
  }

  lemma MatchLoopPrefix(s: string)
    ensures MatchLoop(s).Some? ==> StartsWith(s, "#loop{")
  {
  }

  lemma MatchBeginPrefix(s: string)
    ensures MatchBegin(s).Some? ==> StartsWith(s, "#begin{")
  {
  }

  /** A loop directive's kind and variable are the names its stripped line reads as. */
  lemma ClassifyLoopSound(line: string)
    requires Classify(line).Loop?
    ensures LoopReading(Strip(line), Classify(line).kind, Classify(line).variable)
  {
    MatchLoopSound(Strip(line));
  }

  /** Every line whose stripped form has the loop shape is a loop directive. */
  lemma ClassifyLoopComplete(line: string, left: string, right: string, i1: int, j1: int, i2: int, j2: int)
    requires Strip(line) == "#loop{" + left + "," + right + "}"
    requires NameSplit(left, i1, j1) && NameSplit(right, i2, j2)
    ensures Classify(line).Loop?
  {
    MatchLoopComplete(Strip(line), left, right, i1, j1, i2, j2);
  }

  /** A begin directive's spec is what its stripped line reads as. */
  lemma ClassifyBeginSound(line: string)
    requires Classify(line).Begin?
    ensures BeginReading(Strip(line), Classify(line).spec)
  {
    MatchBeginSound(Strip(line));
  }

  /** Every line whose stripped form has the begin shape is a begin directive. */
  lemma ClassifyBeginComplete(line: string, body: string, i: int, j: int)
    requires Strip(line) == "#begin{" + body + "}"
    requires MacroSplit(body, i, j)
    ensures Classify(line).Begin?
  {
    var s := Strip(line);
    MatchBeginComplete(s, body, i, j);
    assert s[1] == 'b';
    StartsWithAt(s, "#loop{", 1);
    MatchLoopPrefix(s);
  }

  /** A line closes a block exactly when its stripped form starts with `#end`,
      whatever follows: `#endfoo` closes a block too. */
  lemma ClassifyEnd(line: string)
    ensures Classify(line) == End <==> StartsWith(Strip(line), "#end")
  {
    var s := Strip(line);
    if StartsWith(s, "#end") {
      StartsWithAt(s, "#end", 1);
      MatchLoopPrefix(s);
      StartsWithAt(s, "#loop{", 1);
      MatchBeginPrefix(s);
      StartsWithAt(s, "#begin{", 1);
      assert MatchLoop(s).None? && MatchBegin(s).None?;
    }
  }

  /** A line whose stripped form does not start with `#` is never a directive. */
  lemma ClassifyPlain(line: string)
    requires Strip(line) == [] || Strip(line)[0] != '#'
    ensures Classify(line) == Other
  {
    var s := Strip(line);
    StartsWithAt(s, "#end", 0);
    StartsWithAt(s, "#loop{", 0);
    StartsWithAt(s, "#begin{", 0);
  }
}
