/**
  How blocks nest in `run_preprocessor` (runtests.py lines 42-125): the number of
  open frames after a run of lines, where an end line fails, and why a block
  expands the same way whatever is open around it.
 */
module Nesting {
  import opened Results
  import opened Directives
  import opened Frames
  import opened Preprocessor

  /** The net number of frames the lines open when each of them succeeds. */
  function Depth(lines: seq<TemplateLine>): int
  {
    if lines == [] then 0 else Delta(lines[0].directive) + Depth(lines[1..])
  }

  lemma {:induction false} DepthAppend(a: seq<TemplateLine>, b: seq<TemplateLine>)
    ensures Depth(a + b) == Depth(a) + Depth(b)
    decreases |a|
  {
    if a == [] {
      assert a + b == b;
    } else {
      assert (a + b)[0] == a[0];
      assert (a + b)[1..] == a[1..] + b;
      DepthAppend(a[1..], b);
    }
  }

  /** The end-block error is raised by an end line with only the document
      frame open, naming its 1-based line, and by nothing else. */
  lemma StepFailure(env: Environment, fetch: Fetch, stack: seq<Frame>, index: nat, d: Directive, line: string)
    requires |stack| >= 1
    ensures var r := Step(env, fetch, stack, index, d, line);
      && (d == End && |stack| == 1 ==> r == Failure(InvalidEndBlock(index + 1)))
      && (r.Failure? && r.error.InvalidEndBlock? ==> d == End && |stack| == 1 && r.error == InvalidEndBlock(index + 1))
  {
  }

  /** A successful run of lines leaves as many frames open as were open
      before, plus the depth of the lines. */
  lemma {:induction false} ProcessDepth(env: Environment, fetch: Fetch, stack: seq<Frame>, lines: seq<TemplateLine>, index: nat)
    requires |stack| >= 1
    ensures var p := Process(env, fetch, stack, lines, index);
      p.Success? ==> |p.value| == |stack| + Depth(lines)
    decreases |lines|
  {
    if lines != [] {
      var step := Step(env, fetch, stack, index, lines[0].directive, lines[0].text);
      ProcessFirst(env, fetch, stack, lines, index);
      if step.Success? {
        ProcessDepth(env, fetch, step.value, lines[1..], index + 1);
      }
    }
  }

  /** When a run of lines succeeds, no prefix of it closes more blocks than
      were open: the document frame is never popped. */
  lemma ProcessPrefixDepth(env: Environment, fetch: Fetch, stack: seq<Frame>, lines: seq<TemplateLine>, index: nat, k: nat)
    requires |stack| >= 1 && k <= |lines|
    requires Process(env, fetch, stack, lines, index).Success?
    ensures |stack| + Depth(lines[..k]) >= 1
  {
    assert lines == lines[..k] + lines[k..];
    ProcessAppend(env, fetch, stack, lines[..k], lines[k..], index);
    ProcessDepth(env, fetch, stack, lines[..k], index);
  }

  /** An end-block error names the 1-based position of an end line, and the
      lines before it, processed, leave only one frame open. */
  lemma {:induction false} ProcessEndError(env: Environment, fetch: Fetch, stack: seq<Frame>, lines: seq<TemplateLine>, index: nat, n: nat)
    requires |stack| >= 1
    requires Process(env, fetch, stack, lines, index) == Failure(InvalidEndBlock(n))
    ensures index < n <= index + |lines|
    ensures lines[n - 1 - index].directive == End
    ensures var before := Process(env, fetch, stack, lines[..n - 1 - index], index);
      before.Success? && |before.value| == 1
    decreases |lines|
  {
    assert lines != [];
    var step := Step(env, fetch, stack, index, lines[0].directive, lines[0].text);
    if step.Failure? {
      ProcessFirst(env, fetch, stack, lines, index);
      EndErrorHere(env, fetch, stack, lines, index, n);
    } else {
      EndErrorRest(env, fetch, stack, lines, index, n);
      ProcessEndError(env, fetch, step.value, lines[1..], index + 1, n);
      EndErrorLater(env, fetch, stack, lines, index, n);
    }
  }

  /** After a successful first line, the error comes from the rest of the lines. */
  lemma EndErrorRest(env: Environment, fetch: Fetch, stack: seq<Frame>, lines: seq<TemplateLine>, index: nat, n: nat)
    requires |stack| >= 1 && |lines| >= 1
    requires Process(env, fetch, stack, lines, index) == Failure(InvalidEndBlock(n))
    ensures var step := Step(env, fetch, stack, index, lines[0].directive, lines[0].text);
      step.Success? ==> Process(env, fetch, step.value, lines[1..], index + 1) == Failure(InvalidEndBlock(n))
  {
    ProcessFirst(env, fetch, stack, lines, index);
  }

  /** `ProcessEndError` for lines processed from the start of a template. */
  lemma ProcessEndErrorFromStart(env: Environment, fetch: Fetch, lines: seq<TemplateLine>, n: nat)
    requires Process(env, fetch, [Root], lines, 0) == Failure(InvalidEndBlock(n))
    ensures 1 <= n <= |lines| && lines[n - 1].directive == End
    ensures var before := Process(env, fetch, [Root], lines[..n - 1], 0);
      before.Success? && |before.value| == 1
  {
    ProcessEndError(env, fetch, [Root], lines, 0, n);
  }

  /** An end-block error raised by the first line itself. */
  lemma EndErrorHere(env: Environment, fetch: Fetch, stack: seq<Frame>, lines: seq<TemplateLine>, index: nat, n: nat)
    requires |stack| >= 1 && |lines| >= 1
    requires Step(env, fetch, stack, index, lines[0].directive, lines[0].text) == Failure(InvalidEndBlock(n))
    ensures n == index + 1 && lines[0].directive == End
    ensures Process(env, fetch, stack, lines[..0], index) == Success(stack) && |stack| == 1
  {
    StepFailure(env, fetch, stack, index, lines[0].directive, lines[0].text);
    assert lines[..0] == [];
  }

  /** An end-block error raised after a successful first line, as found in the
      rest of the lines, seen from the first line. */
  lemma EndErrorLater(env: Environment, fetch: Fetch, stack: seq<Frame>, lines: seq<TemplateLine>, index: nat, n: nat)
    requires |stack| >= 1 && |lines| >= 1
    requires var step := Step(env, fetch, stack, index, lines[0].directive, lines[0].text);
      && step.Success?
      && index + 1 < n <= index + 1 + |lines[1..]|
      && lines[1..][n - 1 - (index + 1)].directive == End
      && var before := Process(env, fetch, step.value, lines[1..][..n - 1 - (index + 1)], index + 1);
        before.Success? && |before.value| == 1
    ensures index < n <= index + |lines|
    ensures lines[n - 1 - index].directive == End
    ensures var before := Process(env, fetch, stack, lines[..n - 1 - index], index);
      before.Success? && |before.value| == 1
  {
    EndLineLater(lines, index, n);
    PrefixLater(env, fetch, stack, lines, index, n);
  }

  lemma EndLineLater(lines: seq<TemplateLine>, index: nat, n: nat)
    requires |lines| >= 1 && index + 1 < n <= index + 1 + |lines[1..]|
    requires lines[1..][n - 1 - (index + 1)].directive == End
    ensures index < n <= index + |lines|
    ensures lines[n - 1 - index].directive == End
  {
  }

  lemma PrefixLater(env: Environment, fetch: Fetch, stack: seq<Frame>, lines: seq<TemplateLine>, index: nat, n: nat)
    requires |stack| >= 1 && |lines| >= 1
    requires var step := Step(env, fetch, stack, index, lines[0].directive, lines[0].text);
      && step.Success?
      && index + 1 < n <= index + 1 + |lines[1..]|
      && var before := Process(env, fetch, step.value, lines[1..][..n - 1 - (index + 1)], index + 1);
        before.Success? && |before.value| == 1
    ensures var before := Process(env, fetch, stack, lines[..n - 1 - index], index);
      before.Success? && |before.value| == 1
  {
    var prefix := lines[..n - 1 - index];
    assert prefix[0] == lines[0];
    assert prefix[1..] == lines[1..][..n - 1 - (index + 1)];
    ProcessFirst(env, fetch, stack, prefix, index);
  }

  /** Conversely, an end line reached with only one frame open fails with the
      end-block error naming its 1-based position `n`. */
  lemma ProcessEndAtRoot(env: Environment, fetch: Fetch, stack: seq<Frame>, before: seq<TemplateLine>, end: TemplateLine, after: seq<TemplateLine>, index: nat, n: nat)
    requires |stack| >= 1 && end.directive == End && n == index + |before| + 1
    requires var p := Process(env, fetch, stack, before, index); p.Success? && |p.value| == 1
    ensures Process(env, fetch, stack, before + [end] + after, index) == Failure(InvalidEndBlock(n))
  {
    var p := Process(env, fetch, stack, before, index);
    Regroup(before, [end], after);
    ProcessAppend(env, fetch, stack, before, [end] + after, index);
    EndFirstAtRoot(env, fetch, p.value, end, after, index + |before|, n);
  }

  /** An end line met first with one frame open fails, naming its 1-based position. */
  lemma EndFirstAtRoot(env: Environment, fetch: Fetch, stack: seq<Frame>, end: TemplateLine, after: seq<TemplateLine>, index: nat, n: nat)
    requires |stack| == 1 && end.directive == End && n == index + 1
    ensures Process(env, fetch, stack, [end] + after, index) == Failure(InvalidEndBlock(n))
  {
    assert ([end] + after)[0] == end;
    ProcessFirst(env, fetch, stack, [end] + after, index);
    StepEndAtRoot(env, fetch, stack, index, end.text);
  }

  lemma Regroup<T>(a: seq<T>, b: seq<T>, c: seq<T>)
    ensures a + b + c == a + (b + c)
  {
  }

  // ---------------------------------------------------------------------------
  // Locality: frames below the ones a run of lines touches play no part

  lemma AppendToTopUnder(base: seq<Frame>, stack: seq<Frame>, lines: seq<string>)
    requires |stack| >= 1
    ensures AppendToTop(base + stack, lines) == base + AppendToTop(stack, lines)
  {
    assert (base + stack)[..|base + stack| - 1] == base + stack[..|stack| - 1];
    assert Top(base + stack) == Top(stack);
  }

  lemma StepUnderOpen(env: Environment, fetch: Fetch, base: seq<Frame>, stack: seq<Frame>, index: nat, d: Directive, line: string)
    requires |stack| >= 1 && (d.Loop? || d.Begin?)
    requires Step(env, fetch, stack, index, d, line).Success?
    ensures Step(env, fetch, base + stack, index, d, line) == Success(base + Step(env, fetch, stack, index, d, line).value)
  {
    var f := Opened(env, fetch, d).value;
    assert (base + stack) + [f] == base + (stack + [f]);
  }

  lemma StepUnderEnd(env: Environment, fetch: Fetch, base: seq<Frame>, stack: seq<Frame>, index: nat, line: string)
    requires |stack| >= 2 && Close(Top(stack)).Success?
    ensures Step(env, fetch, base + stack, index, End, line) == Success(base + Step(env, fetch, stack, index, End, line).value)
  {
    assert (base + stack)[..|base + stack| - 1] == base + stack[..|stack| - 1];
    assert Top(base + stack) == Top(stack);
    AppendToTopUnder(base, stack[..|stack| - 1], Close(Top(stack)).value);
  }

  /** A line that succeeds on a stack does the same on top of any further frames. */
  lemma StepUnder(env: Environment, fetch: Fetch, base: seq<Frame>, stack: seq<Frame>, index: nat, d: Directive, line: string)
    requires |stack| >= 1
    requires Step(env, fetch, stack, index, d, line).Success?
    ensures Step(env, fetch, base + stack, index, d, line) == Success(base + Step(env, fetch, stack, index, d, line).value)
  {
    if d.Loop? || d.Begin? {
      StepUnderOpen(env, fetch, base, stack, index, d, line);
    } else if d == End {
      StepFailure(env, fetch, stack, index, d, line);
      StepClose(env, fetch, stack, index, line);
      StepUnderEnd(env, fetch, base, stack, index, line);
    } else {
      StepOther(env, fetch, stack, index, line);
      StepOther(env, fetch, base + stack, index, line);
      AppendToTopUnder(base, stack, [line]);
    }
  }

  /** A run of lines that succeeds on a stack does the same on top of any further frames. */
  lemma {:induction false} ProcessUnder(env: Environment, fetch: Fetch, base: seq<Frame>, stack: seq<Frame>, lines: seq<TemplateLine>, index: nat)
    requires |stack| >= 1
    requires Process(env, fetch, stack, lines, index).Success?
    ensures Process(env, fetch, base + stack, lines, index) == Success(base + Process(env, fetch, stack, lines, index).value)
    decreases |lines|
  {
    if lines != [] {
      var step := Step(env, fetch, stack, index, lines[0].directive, lines[0].text);
      ProcessFirst(env, fetch, stack, lines, index);
      ProcessFirst(env, fetch, base + stack, lines, index);
      StepUnder(env, fetch, base, stack, index, lines[0].directive, lines[0].text);
      ProcessUnder(env, fetch, base, step.value, lines[1..], index + 1);
    }
  }

  // ---------------------------------------------------------------------------
  // Blocks

  /** The end line of a block closes the block's frame into the one below. */
  lemma ProcessEndLine(env: Environment, fetch: Fetch, stack: seq<Frame>, g: Frame, end: TemplateLine, index: nat)
    requires |stack| >= 1 && end.directive == End
    ensures Process(env, fetch, stack + [g], [end], index) == CloseOnto(stack, g)
  {
    var s := stack + [g];
    assert s[..|s| - 1] == stack && Top(s) == g;
    ProcessFirst(env, fetch, s, [end], index);
    assert [end][1..] == [];
  }

  /** An opening line that succeeds hands the rest of the lines the stack with its frame pushed. */
  lemma ProcessOpenLine(env: Environment, fetch: Fetch, stack: seq<Frame>, open: TemplateLine, f: Frame, rest: seq<TemplateLine>, index: nat)
    requires |stack| >= 1
    requires Step(env, fetch, stack, index, open.directive, open.text) == Success(stack + [f])
    ensures Process(env, fetch, stack, [open] + rest, index) == Process(env, fetch, stack + [f], rest, index + 1)
  {
    var lines := [open] + rest;
    assert lines[0] == open && lines[1..] == rest;
    ProcessFirst(env, fetch, stack, lines, index);
  }

  /** A block's body and end line, on top of the frame the block opened. */
  lemma ProcessBodyAndEnd(env: Environment, fetch: Fetch, stack: seq<Frame>, f: Frame, body: seq<TemplateLine>, g: Frame, end: TemplateLine, index: nat)
    requires |stack| >= 1 && end.directive == End
    requires Process(env, fetch, [f], body, index) == Success([g])
    ensures Process(env, fetch, stack + [f], body + [end], index) == CloseOnto(stack, g)
  {
    ProcessUnder(env, fetch, stack, [f], body, index);
    ProcessAppend(env, fetch, stack + [f], body, [end], index);
    ProcessEndLine(env, fetch, stack, g, end, index + |body|);
  }

  /** A whole block: an opening line that pushes frame `f`, a body that,
      started on `f` alone, leaves one frame `g` open, and an end line. The block
      contributes what `g` contributes when closed to the frame that was open
      before it, whatever else is open below, or fails with the `TypeError`
      closing `g` raises. */
  lemma ProcessBlock(env: Environment, fetch: Fetch, stack: seq<Frame>, open: TemplateLine, f: Frame, body: seq<TemplateLine>, g: Frame, end: TemplateLine, index: nat)
    requires |stack| >= 1 && end.directive == End
    requires Step(env, fetch, stack, index, open.directive, open.text) == Success(stack + [f])
    requires Process(env, fetch, [f], body, index + 1) == Success([g])
    ensures Process(env, fetch, stack, [open] + body + [end], index) == CloseOnto(stack, g)
  {
    assert [open] + body + [end] == [open] + (body + [end]);
    ProcessOpenLine(env, fetch, stack, open, f, body + [end], index);
    ProcessBodyAndEnd(env, fetch, stack, f, body, g, end, index + 1);
  }

  /** A body without directives leaves the frame it starts on open, with the
      body's lines in its buffer. */
  lemma PlainBody(env: Environment, fetch: Fetch, f: Frame, body: seq<TemplateLine>, index: nat)
    requires forall i :: 0 <= i < |body| ==> body[i].directive == Other
    ensures Process(env, fetch, [f], body, index) == Success([f.(buffer := f.buffer + Texts(body))])
  {
    ProcessPlain(env, fetch, [f], body, index);
  }
}
