/**
  Placeholder substitution: `inject_variable` (runtests.py lines 30-34), built on
  Python's `str.replace`, which replaces every leftmost non-overlapping
  occurrence of a non-empty pattern.
 */
module Substitution {
  import opened Results
  import opened Text

  /** A binding set: the keyword arguments passed to `inject_variable`, in the
      order their replacements are applied. */
  type Bindings = seq<(string, string)>

  /** The placeholder `{{key}}` that stands for `key` in a template line. */
  function Placeholder(key: string): string
  {
    "{{" + key + "}}"
  }

  predicate OccursAt(s: string, pattern: string, i: nat)
  {
    i + |pattern| <= |s| && s[i..i + |pattern|] == pattern
  }

  ghost predicate Occurs(s: string, pattern: string)
  {
    exists i: nat :: OccursAt(s, pattern, i)
  }

  /** `s.replace(pattern, replacement)`: scanning from the left, each occurrence
      of `pattern` is replaced and the scan resumes after it. */
  function ReplaceAll(s: string, pattern: string, replacement: string): string
    requires pattern != []
    decreases |s|
  {
    if s == [] then []
    else if OccursAt(s, pattern, 0) then replacement + ReplaceAll(s[|pattern|..], pattern, replacement)
    else [s[0]] + ReplaceAll(s[1..], pattern, replacement)
  }

  /** `s.split(pattern)`: the pieces between the occurrences `ReplaceAll`
      replaces. They join back into `s` and none of them holds the pattern. */
  function SplitOn(s: string, pattern: string): (parts: seq<string>)
    requires pattern != []
    ensures |parts| >= 1
    ensures Join(parts, pattern) == s
    ensures forall i :: 0 <= i < |parts| ==> !Occurs(parts[i], pattern)
    decreases |s|
  {
    if s == [] then
      NothingOccursInEmpty(pattern);
      [[]]
    else if OccursAt(s, pattern, 0) then
      var rest := SplitOn(s[|pattern|..], pattern);
      SplitAtMatch(s, pattern, rest);
      [[]] + rest
    else
      var rest := SplitOn(s[1..], pattern);
      SplitPastChar(s, pattern, rest);
      [[s[0]] + rest[0]] + rest[1..]
  }

  /** A string starting with the pattern splits into an empty piece followed
      by the pieces of what follows the pattern. */
  lemma SplitAtMatch(s: string, pattern: string, rest: seq<string>)
    requires pattern != [] && OccursAt(s, pattern, 0)
    requires |rest| >= 1 && Join(rest, pattern) == s[|pattern|..]
    requires forall i :: 0 <= i < |rest| ==> !Occurs(rest[i], pattern)
    ensures Join([[]] + rest, pattern) == s
    ensures forall i :: 0 <= i < |rest| + 1 ==> !Occurs(([[]] + rest)[i], pattern)
  {
    assert Join([[]] + rest, pattern) == s by {
      JoinCons([], rest, pattern);
      assert s == s[..|pattern|] + s[|pattern|..];
    }
    forall i | 0 <= i < |rest| + 1 ensures !Occurs(([[]] + rest)[i], pattern) {
      if i == 0 {
        NothingOccursInEmpty(pattern);
      } else {
        assert ([[]] + rest)[i] == rest[i - 1];
      }
    }
  }

  /** A string not starting with the pattern keeps its first character in its
      first piece. */
  lemma SplitPastChar(s: string, pattern: string, rest: seq<string>)
    requires pattern != [] && s != [] && !OccursAt(s, pattern, 0)
    requires |rest| >= 1 && Join(rest, pattern) == s[1..]
    requires forall i :: 0 <= i < |rest| ==> !Occurs(rest[i], pattern)
    ensures Join([[s[0]] + rest[0]] + rest[1..], pattern) == s
    ensures forall i :: 0 <= i < |rest| ==> !Occurs(([[s[0]] + rest[0]] + rest[1..])[i], pattern)
  {
    JoinExtendHead([s[0]], rest, pattern);
    JoinHead(rest, pattern);
    NoOccurrenceCons(s, rest[0], pattern);
    var parts := [[s[0]] + rest[0]] + rest[1..];
    assert forall i :: 1 <= i < |parts| ==> parts[i] == rest[i];
  }

  lemma NothingOccursInEmpty(pattern: string)
    requires pattern != []
    ensures !Occurs([], pattern)
  {
  }

  /** The first piece starts the joined string. */
  lemma JoinHead(parts: seq<string>, sep: string)
    requires |parts| >= 1
    ensures |parts[0]| <= |Join(parts, sep)| && Join(parts, sep)[..|parts[0]|] == parts[0]
  {
    if |parts| > 1 {
      assert Join(parts, sep) == parts[0] + (sep + Join(parts[1..], sep));
    }
  }

  /** A string's first character followed by a pattern-free start of the
      rest holds the pattern only if the string starts with it. */
  lemma NoOccurrenceCons(s: string, piece: string, pattern: string)
    requires pattern != [] && s != [] && !OccursAt(s, pattern, 0)
    requires |piece| <= |s| - 1 && s[1..][..|piece|] == piece
    requires !Occurs(piece, pattern)
    ensures !Occurs([s[0]] + piece, pattern)
  {
    var t := [s[0]] + piece;
    assert t == s[..|t|];
    forall i: nat | OccursAt(t, pattern, i) ensures false {
      if i > 0 {
        assert t[i..i + |pattern|] == piece[i - 1..i - 1 + |pattern|];
        assert OccursAt(piece, pattern, i - 1);
      }
    }
  }

  lemma JoinCons(head: string, rest: seq<string>, sep: string)
    requires |rest| >= 1
    ensures Join([head] + rest, sep) == head + sep + Join(rest, sep)
  {
    assert ([head] + rest)[1..] == rest;
  }

  /** Prepending to the first piece prepends to the joined string. */
  lemma JoinExtendHead(prefix: string, parts: seq<string>, sep: string)
    requires |parts| >= 1
    ensures Join([prefix + parts[0]] + parts[1..], sep) == prefix + Join(parts, sep)
  {
    if |parts| > 1 {
      assert ([prefix + parts[0]] + parts[1..])[1..] == parts[1..];
    }
  }

  /** Python's `s.replace(p, r) == r.join(s.split(p))`: replacing is splitting on
      the pattern and joining with the replacement. */
  lemma {:induction false} ReplaceIsJoinOfSplit(s: string, pattern: string, replacement: string)
    requires pattern != []
    ensures ReplaceAll(s, pattern, replacement) == Join(SplitOn(s, pattern), replacement)
    decreases |s|
  {
    if s == [] {
    } else if OccursAt(s, pattern, 0) {
      var rest := SplitOn(s[|pattern|..], pattern);
      ReplaceIsJoinOfSplit(s[|pattern|..], pattern, replacement);
      JoinCons([], rest, replacement);
    } else {
      var rest := SplitOn(s[1..], pattern);
      ReplaceIsJoinOfSplit(s[1..], pattern, replacement);
      JoinExtendHead([s[0]], rest, replacement);
    }
  }

  /** A string in which the pattern does not occur is returned unchanged. */
  lemma {:induction false} ReplaceAbsent(s: string, pattern: string, replacement: string)
    requires pattern != []
    requires !Occurs(s, pattern)
    ensures ReplaceAll(s, pattern, replacement) == s
    decreases |s|
  {
    if s != [] {
      assert !OccursAt(s, pattern, 0);
      assert !Occurs(s[1..], pattern) by {
        forall i: nat | OccursAt(s[1..], pattern, i) ensures OccursAt(s, pattern, i + 1) {
          assert s[1..][i..i + |pattern|] == s[i + 1..i + 1 + |pattern|];
        }
      }
      ReplaceAbsent(s[1..], pattern, replacement);
    }
  }

  /** `inject_variable(line, **bindings)`: for each binding in turn, every
      `{{key}}` in the line is replaced by the bound value. */
  function Inject(line: string, bindings: Bindings): string
    decreases |bindings|
  {
    if bindings == [] then line
    else Inject(ReplaceAll(line, Placeholder(bindings[0].0), bindings[0].1), bindings[1..])
  }

  /** The name of the parameter through which `inject_variable` receives its
      line. Python binds keyword arguments to parameters by name, so a binding
      with this key collides with it. */
  const LineParameter: string := "line"

  /** Whether one of the bindings has the key `line`. */
  predicate BindsLine(bindings: Bindings) {
    exists i | 0 <= i < |bindings| :: bindings[i].0 == LineParameter
  }

  /** A single binding binds `line` exactly when its key is `line`. */
  lemma BindsLineOne(key: string, value: string)
    ensures BindsLine([(key, value)]) <==> key == LineParameter
  {
    assert [(key, value)][0].0 == key;
  }

  /** The call `inject_variable(line, **bindings)`. A binding for `line` makes
      the call raise `TypeError` ("got multiple values for keyword argument"),
      here `None`, before the body runs. Otherwise the call returns the line
      rewritten by `Inject`. */
  function InjectCall(line: string, bindings: Bindings): Option<string>
  {
    if BindsLine(bindings) then None else Some(Inject(line, bindings))
  }

  /** A line holding none of the bindings' placeholders comes back unchanged;
      in particular an empty binding set changes no line. */
  lemma {:induction false} InjectAbsent(line: string, bindings: Bindings)
    requires forall i :: 0 <= i < |bindings| ==> !Occurs(line, Placeholder(bindings[i].0))
    ensures Inject(line, bindings) == line
    decreases |bindings|
  {
    if bindings != [] {
      ReplaceAbsent(line, Placeholder(bindings[0].0), bindings[0].1);
      assert forall i :: 0 <= i < |bindings[1..]| ==> bindings[1..][i] == bindings[i + 1];
      InjectAbsent(line, bindings[1..]);
    }
  }

  /** A single binding replaces exactly its own placeholder. */
  lemma InjectOne(line: string, key: string, value: string)
    ensures Inject(line, [(key, value)]) == ReplaceAll(line, Placeholder(key), value)
  {
    assert [(key, value)][1..] == [];
  }

  /** The loop of `inject_variable`, lines 32-34: the line rewritten by each
      binding in turn. */
  method InjectVariable(line: string, bindings: Bindings) returns (r: string)
    ensures r == Inject(line, bindings)
  {
    r := line;
    var i := 0;
    while i < |bindings|
      invariant 0 <= i <= |bindings|
      invariant Inject(line, bindings) == Inject(r, bindings[i..])
    {
      assert bindings[i..][1..] == bindings[i + 1..];
      r := ReplaceAll(r, Placeholder(bindings[i].0), bindings[i].1);
      i := i + 1;
    }
  }
}
