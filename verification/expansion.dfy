/**
  Whole templates through `run_preprocessor` (runtests.py lines 39-127): when the
  expansion succeeds, where an end-block error points, and what a template made
  of one block expands to.
 */
module Expansion {
  import opened Results
  import opened Text
  import opened Substitution
  import opened Directives
  import opened Frames
  import opened Preprocessor
  import opened Nesting

  /** A template expands exactly when every line is accepted and the block
      directives balance: as many blocks closed as opened. Lines accepted with
      blocks still open are the unclosed-block error, and the document frame is
      never closed. */
  lemma RunBalanced(env: Environment, fetch: Fetch, lines: seq<string>)
    ensures var p := Process(env, fetch, [Root], Tag(lines), 0);
      && (Run(env, fetch, lines).Success? <==> p.Success? && Depth(Tag(lines)) == 0)
      && (p.Success? && Depth(Tag(lines)) != 0 ==> Run(env, fetch, lines) == Failure(UnclosedBlock))
      && (p.Success? ==> Depth(Tag(lines)) >= 0)
  {
    ProcessDepth(env, fetch, [Root], Tag(lines), 0);
  }

  /** An end-block error names the 1-based number of an end line, and the
      lines before it leave only the document frame open. */
  lemma RunEndError(env: Environment, fetch: Fetch, lines: seq<string>, n: nat)
    requires Run(env, fetch, lines) == Failure(InvalidEndBlock(n))
    ensures 1 <= n <= |lines| && Classify(lines[n - 1]) == End
    ensures var before := Process(env, fetch, [Root], Tag(lines[..n - 1]), 0);
      before.Success? && |before.value| == 1
  {
    RunError(env, fetch, lines, InvalidEndBlock(n));
    ProcessEndErrorFromStart(env, fetch, Tag(lines), n);
    EndLineOf(lines, n - 1);
    TagPrefix(lines, n - 1);
  }

  /** An error other than an unclosed block is the error of some line. */
  lemma RunError(env: Environment, fetch: Fetch, lines: seq<string>, e: MacroError)
    requires Run(env, fetch, lines) == Failure(e) && e != UnclosedBlock
    ensures Process(env, fetch, [Root], Tag(lines), 0) == Failure(e)
  {
  }

  lemma EndLineOf(lines: seq<string>, k: nat)
    requires k < |lines| && Tag(lines)[k].directive == End
    ensures Classify(lines[k]) == End
  {
    TagAt(lines, k);
  }

  // ---------------------------------------------------------------------------
  // One block with a body of plain lines

  /** A frame opened on `stack` by a line, with a plain body and an end line
      after it: the block adds what the frame, holding the body, contributes,
      or fails with the error closing it raises. */
  lemma PlainBlock(env: Environment, fetch: Fetch, stack: seq<Frame>, open: TemplateLine, f: Frame, body: seq<TemplateLine>, end: TemplateLine, index: nat)
    requires |stack| >= 1 && f.buffer == [] && end.directive == End
    requires Step(env, fetch, stack, index, open.directive, open.text) == Success(stack + [f])
    requires forall i :: 0 <= i < |body| ==> body[i].directive == Other
    ensures Process(env, fetch, stack, [open] + body + [end], index) == CloseOnto(stack, f.(buffer := Texts(body)))
  {
    PlainBody(env, fetch, f, body, index + 1);
    assert f.buffer + Texts(body) == Texts(body);
    ProcessBlock(env, fetch, stack, open, f, body, f.(buffer := Texts(body)), end, index);
  }

  /** `#begin{VAR}` ... `#end` with VAR an integer variable `n`: the body `n`
      times over, nothing when `n <= 0`, and `OverflowError` when `n` is
      outside the index range, whatever the body. */
  lemma RepeatBlock(env: Environment, fetch: Fetch, stack: seq<Frame>, spec: string, open: string, body: seq<TemplateLine>, end: TemplateLine, index: nat)
    requires |stack| >= 1 && end.directive == End
    requires ',' !in spec && spec in env && ParseInt(env[spec]).Some?
    requires forall i :: 0 <= i < |body| ==> body[i].directive == Other
    ensures var n := ParseInt(env[spec]).value;
      Process(env, fetch, stack, [TemplateLine(Begin(spec), open)] + body + [end], index) ==
        if FitsIndex(n) then Success(AppendToTop(stack, Repeat(Texts(body), n))) else Failure(CloseError(CountOverflow))
  {
    var n := ParseInt(env[spec]).value;
    StepBegin(env, fetch, stack, index, spec, open);
    PlainBlock(env, fetch, stack, TemplateLine(Begin(spec), open), Frame(n, None, [], None), body, end, index);
    CloseRepeat(Texts(body), n);
  }

  /** `#begin{VAR, V1, ..., Vk}` ... `#end`: the body once per value in listed
      order, `{{VAR}}` replaced by the value. When VAR is `line` and there are
      values and body lines, the substitution raises `TypeError`. */
  lemma EnumerationBlock(env: Environment, fetch: Fetch, stack: seq<Frame>, spec: string, open: string, body: seq<TemplateLine>, end: TemplateLine, index: nat)
    requires |stack| >= 1 && end.directive == End && ',' in spec
    requires forall i :: 0 <= i < |body| ==> body[i].directive == Other
    ensures var e := EnumerationOf(spec);
      var p := Process(env, fetch, stack, [TemplateLine(Begin(spec), open)] + body + [end], index);
      && (e.variable == LineParameter && e.values != [] && body != [] ==> p == Failure(CloseError(ArgumentClash)))
      && (e.variable != LineParameter || e.values == [] || body == [] ==>
            p == Success(AppendToTop(stack, ForEachRow(Texts(body), EnumerationRows(e)))))
  {
    var e := EnumerationOf(spec);
    StepBegin(env, fetch, stack, index, spec, open);
    PlainBlock(env, fetch, stack, TemplateLine(Begin(spec), open), Frame(1, Some(e), [], None), body, end, index);
    CloseEnumerated(e, Texts(body));
  }

  /** `#loop{products, VAR}` ... `#end` with VAR an integer variable `n`: the
      body once per row fetched for `n`, in fetched order, each row's fields
      substituted. A fetched row with a field `line` makes a non-empty body
      raise `TypeError`. */
  lemma LoopBlock(env: Environment, fetch: Fetch, stack: seq<Frame>, kind: string, name: string, open: string, body: seq<TemplateLine>, end: TemplateLine, index: nat)
    requires |stack| >= 1 && end.directive == End
    requires name in env && ParseInt(env[name]).Some? && IsProductsKind(kind)
    requires forall i :: 0 <= i < |body| ==> body[i].directive == Other
    ensures var rows := fetch(ParseInt(env[name]).value);
      var p := Process(env, fetch, stack, [TemplateLine(Loop(kind, name), open)] + body + [end], index);
      && (body != [] && (exists k | 0 <= k < |rows| :: BindsLine(rows[k])) ==> p == Failure(CloseError(ArgumentClash)))
      && (body == [] || (forall k | 0 <= k < |rows| :: !BindsLine(rows[k])) ==>
            p == Success(AppendToTop(stack, ForEachRow(Texts(body), rows))))
  {
    var rows := fetch(ParseInt(env[name]).value);
    StepLoop(env, fetch, stack, index, kind, name, open);
    PlainBlock(env, fetch, stack, TemplateLine(Loop(kind, name), open), Frame(1, None, [], Some(rows)), body, end, index);
    CloseRows(rows, Texts(body));
  }

  /** The classified form of a template made of one block. */
  lemma TagBlock(open: string, body: seq<string>, end: string)
    ensures Tag([open] + body + [end]) == [TemplateLine(Classify(open), open)] + Tag(body) + [TemplateLine(Classify(end), end)]
  {
    TagAppend([open] + body, [end]);
    TagAppend([open], body);
    TagSingle(open);
    TagSingle(end);
  }

  /** A template that is one repeat block, `#begin{VAR}`, plain lines, `#end`,
      with VAR an integer variable `n`, expands to the plain lines `n` times
      over, or fails with `OverflowError` when `n` is outside the index range. */
  lemma RunRepeatTemplate(env: Environment, fetch: Fetch, open: string, spec: string, body: seq<string>, end: string)
    requires Classify(open) == Begin(spec) && Classify(end) == End
    requires ',' !in spec && spec in env && ParseInt(env[spec]).Some?
    requires forall i :: 0 <= i < |body| ==> Classify(body[i]) == Other
    ensures var n := ParseInt(env[spec]).value;
      Run(env, fetch, [open] + body + [end]) ==
        if FitsIndex(n) then Success(Concat(Repeat(body, n))) else Failure(CloseError(CountOverflow))
  {
    var n := ParseInt(env[spec]).value;
    var lines := [open] + body + [end];
    TagBlock(open, body, end);
    TagTexts(body);
    TagPlain(body);
    RepeatBlock(env, fetch, [Root], spec, open, Tag(body), TemplateLine(End, end), 0);
    if FitsIndex(n) {
      RunRootOnly(env, fetch, lines, Repeat(body, n));
    } else {
      RunFailure(env, fetch, lines, CloseError(CountOverflow));
    }
  }

  /** A template that is one enumeration block, `#begin{VAR, V1, ..., Vk}`,
      plain lines, `#end`, expands to the plain lines once per value, `{{VAR}}`
      replaced by the value. When VAR is `line` and there are values and body
      lines, it fails with the `TypeError` of the substitution. */
  lemma RunEnumerationTemplate(env: Environment, fetch: Fetch, open: string, spec: string, body: seq<string>, end: string)
    requires Classify(open) == Begin(spec) && Classify(end) == End && ',' in spec
    requires forall i :: 0 <= i < |body| ==> Classify(body[i]) == Other
    ensures var e := EnumerationOf(spec);
      var r := Run(env, fetch, [open] + body + [end]);
      && (e.variable == LineParameter && e.values != [] && body != [] ==> r == Failure(CloseError(ArgumentClash)))
      && (e.variable != LineParameter || e.values == [] || body == [] ==>
            r == Success(Concat(ForEachRow(body, EnumerationRows(e)))))
  {
    var e := EnumerationOf(spec);
    var lines := [open] + body + [end];
    TagBlock(open, body, end);
    TagTexts(body);
    TagPlain(body);
    EnumerationBlock(env, fetch, [Root], spec, open, Tag(body), TemplateLine(End, end), 0);
    if e.variable == LineParameter && e.values != [] && body != [] {
      RunFailure(env, fetch, lines, CloseError(ArgumentClash));
    } else {
      RunRootOnly(env, fetch, lines, ForEachRow(body, EnumerationRows(e)));
    }
  }

  /** A template that is one loop block, `#loop{products, VAR}`, plain lines,
      `#end`, with VAR an integer variable `n`, expands to the plain lines once
      per row fetched for `n`, each row's fields substituted. A fetched row with
      a field `line` makes a non-empty body fail with `TypeError`. */
  lemma RunLoopTemplate(env: Environment, fetch: Fetch, open: string, kind: string, name: string, body: seq<string>, end: string)
    requires Classify(open) == Loop(kind, name) && Classify(end) == End
    requires name in env && ParseInt(env[name]).Some? && IsProductsKind(kind)
    requires forall i :: 0 <= i < |body| ==> Classify(body[i]) == Other
    ensures var rows := fetch(ParseInt(env[name]).value);
      var r := Run(env, fetch, [open] + body + [end]);
      && (body != [] && (exists k | 0 <= k < |rows| :: BindsLine(rows[k])) ==> r == Failure(CloseError(ArgumentClash)))
      && (body == [] || (forall k | 0 <= k < |rows| :: !BindsLine(rows[k])) ==>
            r == Success(Concat(ForEachRow(body, rows))))
  {
    var rows := fetch(ParseInt(env[name]).value);
    var lines := [open] + body + [end];
    TagBlock(open, body, end);
    TagTexts(body);
    TagPlain(body);
    LoopBlock(env, fetch, [Root], kind, name, open, Tag(body), TemplateLine(End, end), 0);
    if body != [] && exists k | 0 <= k < |rows| :: BindsLine(rows[k]) {
      RunFailure(env, fetch, lines, CloseError(ArgumentClash));
    } else {
      RunRootOnly(env, fetch, lines, ForEachRow(body, rows));
    }
  }

  /** An end line reached with only the document frame open is an end-block
      error naming that line, whatever follows it. */
  lemma RunEndAtRoot(env: Environment, fetch: Fetch, before: seq<string>, end: string, after: seq<string>)
    requires Classify(end) == End
    requires var p := Process(env, fetch, [Root], Tag(before), 0); p.Success? && |p.value| == 1
    ensures Run(env, fetch, before + [end] + after) == Failure(InvalidEndBlock(|before| + 1))
  {
    TagAround(before, end, after);
    ProcessEndAtRoot(env, fetch, [Root], Tag(before), TemplateLine(End, end), Tag(after), 0, |before| + 1);
    RunFailure(env, fetch, before + [end] + after, InvalidEndBlock(|before| + 1));
  }

  /** The classified form of lines around an end line. */
  lemma TagAround(before: seq<string>, end: string, after: seq<string>)
    requires Classify(end) == End
    ensures Tag(before + [end] + after) == Tag(before) + [TemplateLine(End, end)] + Tag(after)
  {
    TagAppend(before + [end], after);
    TagAppend(before, [end]);
    TagSingle(end);
  }

  /** A run fails with the first error of its lines. */
  lemma RunFailure(env: Environment, fetch: Fetch, lines: seq<string>, e: MacroError)
    requires Process(env, fetch, [Root], Tag(lines), 0) == Failure(e)
    ensures Run(env, fetch, lines) == Failure(e)
  {
  }
}
