/**
  `run_preprocessor` (runtests.py lines 39-127) as the source writes it: one pass
  over the lines with a mutable stack of frames, returning at the first error.
  It computes what the functional `Run` states.
 */
module Runner {
  import opened Results
  import opened Text
  import opened Directives
  import opened Frames
  import opened Preprocessor

  /** The loop branch, lines 54-65: variable lookup, integer parse, kind check, push. */
  method OpenLoop(env: Environment, fetch: Fetch, stack: seq<Frame>, index: nat, kind: string, name: string, line: string) returns (r: Result<seq<Frame>, MacroError>)
    requires |stack| >= 1
    ensures r == Step(env, fetch, stack, index, Loop(kind, name), line)
  {
    if name !in env {
      return Failure(MissingLoopVariable(name));
    }
    var parsed := ParseInt(env[name]);
    if parsed.None? {
      return Failure(InvalidVariableValue(name, env[name]));
    }
    if Upper(kind) !in LoopKinds {
      return Failure(UnsupportedLoopKind(kind));
    }
    r := Success(stack + [Frame(1, None, [], Some(fetch(parsed.value)))]);
  }

  /** The begin branch, lines 67-88: an enumeration when the spec has a comma,
      otherwise a repeat count read from the environment. */
  method OpenBegin(env: Environment, fetch: Fetch, stack: seq<Frame>, index: nat, spec: string, line: string) returns (r: Result<seq<Frame>, MacroError>)
    requires |stack| >= 1
    ensures r == Step(env, fetch, stack, index, Begin(spec), line)
  {
    if ',' in spec {
      return Success(stack + [Frame(1, Some(EnumerationOf(spec)), [], None)]);
    }
    if spec !in env {
      return Failure(InvalidEnvironmentVariable(spec));
    }
    var parsed := ParseInt(env[spec]);
    if parsed.None? {
      return Failure(InvalidVariableValue(spec, env[spec]));
    }
    r := Success(stack + [Frame(parsed.value, None, [], None)]);
  }

  /** The end branch, lines 90-119: pop the top frame and extend the new top's
      buffer with what it contributes. */
  method CloseBlock(env: Environment, fetch: Fetch, stack: seq<Frame>, index: nat, line: string) returns (r: Result<seq<Frame>, MacroError>)
    requires |stack| >= 1
    ensures r == Step(env, fetch, stack, index, End, line)
  {
    if |stack| <= 1 {
      return Failure(InvalidEndBlock(index + 1));
    }
    var top := stack[|stack| - 1];
    var toAdd := CloseFrame(top);
    if toAdd.Failure? {
      return Failure(CloseError(toAdd.error));
    }
    var parent := stack[..|stack| - 1];
    assert parent[..|parent| - 1] == stack[..|stack| - 2];
    r := Success(AppendToTop(parent, toAdd.value));
  }

  /** One line applied to the stack: the branch its directive selects, lines 54-122. */
  method ApplyLine(env: Environment, fetch: Fetch, stack: seq<Frame>, index: nat, d: Directive, line: string) returns (r: Result<seq<Frame>, MacroError>)
    requires |stack| >= 1
    ensures r == Step(env, fetch, stack, index, d, line)
  {
    match d {
      case Loop(kind, name) =>
        r := OpenLoop(env, fetch, stack, index, kind, name, line);
      case Begin(spec) =>
        r := OpenBegin(env, fetch, stack, index, spec, line);
      case End =>
        r := CloseBlock(env, fetch, stack, index, line);
      case Other =>
        StepOther(env, fetch, stack, index, line);
        r := Success(AppendToTop(stack, [line]));
    }
  }

  /** The loop over the lines, lines 44-122, on lines already classified:
      each line applied to the stack in turn, stopping at the first error. */
  method ProcessLines(env: Environment, fetch: Fetch, lines: seq<TemplateLine>) returns (r: Result<seq<Frame>, MacroError>)
    ensures r == Process(env, fetch, [Root], lines, 0)
  {
    var stack := [Root];
    var i := 0;
    while i < |lines|
      invariant 0 <= i <= |lines| && |stack| >= 1
      invariant Process(env, fetch, [Root], lines, 0) == Process(env, fetch, stack, lines[i..], i)
    {
      var line := lines[i].text;
      ProcessFirst(env, fetch, stack, lines[i..], i);
      assert lines[i..][1..] == lines[i + 1..];
      var next := ApplyLine(env, fetch, stack, i, lines[i].directive, line);
      if next.Failure? {
        return Failure(next.error);
      }
      stack := next.value;
      i := i + 1;
    }
    assert lines[i..] == [];
    r := Success(stack);
  }

  /** The method-form entry point of `run_preprocessor`: the whole function on
      a template's lines, that is the loop, then the end-of-input check and the
      join of lines 124-127. It is the imperative counterpart of `Run`, to which
      its contract equates it. */
  method RunPreprocessor(env: Environment, fetch: Fetch, lines: seq<string>) returns (r: Result<string, MacroError>)
    ensures r == Run(env, fetch, lines)
  {
    var p := ProcessLines(env, fetch, Tag(lines));
    if p.Failure? {
      return Failure(p.error);
    }
    var stack := p.value;
    if |stack| != 1 {
      return Failure(UnclosedBlock);
    }
    RepeatOnce(stack[0].buffer);
    r := Success(Concat(Repeat(stack[0].buffer, stack[0].count)));
  }
}
