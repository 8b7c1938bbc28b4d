/**
  The block expansion engine, `run_preprocessor` (runtests.py lines 39-127).

  The engine keeps a stack of open frames, the bottom one standing for the whole
  document. Each template line is classified; a loop or begin directive pushes a
  frame, an end directive pops the top frame and appends its expansion to the
  frame below, and any other line is appended as it is to the top frame.

  The process environment and the database query behind `get_articles` are
  parameters: an environment map and a fetch function from a requested count to rows.
 */
module Preprocessor {
  import opened Results
  import opened Text
  import opened Substitution
  import opened Directives
  import opened Frames

  /** The ways expanding a template can fail. */
  datatype MacroError =
    | InvalidEnvironmentVariable(name: string)          // SyntaxException, line 81
    | InvalidVariableValue(name: string, value: string)  // SyntaxException, lines 61 and 86
    | InvalidEndBlock(line: nat)                        // SyntaxException, line 93
    | UnclosedBlock                                      // SyntaxException, line 125
    | MissingLoopVariable(name: string)                  // KeyError from os.environ, line 59
    | UnsupportedLoopKind(kind: string)                  // AssertionError, line 64
    | CloseError(cause: CloseFailure)                    // OverflowError or TypeError closing a block, lines 97-115
  {
    /** Whether the source raises its own SyntaxException, the error the driver
        reports for the file before moving on to the next one. */
    predicate IsSyntaxError() {
      !MissingLoopVariable? && !UnsupportedLoopKind? && !CloseError?
    }
  }

  /** The text a SyntaxException carries. */
  function Message(e: MacroError): string
    requires e.IsSyntaxError()
  {
    match e
    case InvalidEnvironmentVariable(name) => "Invalid environment variable: " + name
    case InvalidVariableValue(name, value) => "Invalid variable value: " + name + " (value= '" + value + "')"
    case InvalidEndBlock(line) => "Invalid end block (line: " + NatToString(line) + ")"
    case UnclosedBlock => "A block is not open or is not closed"
  }

  /** An end-block message names the line, and the number written there reads back as it. */
  lemma EndBlockMessageLine(line: nat)
    ensures var m := Message(InvalidEndBlock(line));
      && StartsWith(m, "Invalid end block (line: ")
      && m[|m| - 1] == ')'
      && ParseInt(m[25..|m| - 1]) == Some(line)
  {
    var m := Message(InvalidEndBlock(line));
    assert m[25..|m| - 1] == NatToString(line);
    ParseDigits(NatToString(line));
  }

  /** The first eleven characters of each kind's message. */
  function MessageHead(e: MacroError): string
    requires e.IsSyntaxError()
  {
    match e
    case InvalidEnvironmentVariable(_) => "Invalid env"
    case InvalidVariableValue(_, _) => "Invalid var"
    case InvalidEndBlock(_) => "Invalid end"
    case UnclosedBlock => "A block is "
  }

  lemma MessageStart(e: MacroError)
    requires e.IsSyntaxError()
    ensures |Message(e)| >= 11 && Message(e)[..11] == MessageHead(e)
  {
  }

  /** A message tells which error it reports: equal messages come from the same
      error, except that an invalid-value message does not always tell the
      variable from the value (`MessageAmbiguous`). */
  lemma MessageKind(e1: MacroError, e2: MacroError)
    requires e1.IsSyntaxError() && e2.IsSyntaxError()
    ensures Message(e1) == Message(e2) ==> e1 == e2 || (e1.InvalidVariableValue? && e2.InvalidVariableValue?)
  {
    if Message(e1) == Message(e2) {
      MessageStart(e1);
      MessageStart(e2);
      assert MessageHead(e1) == MessageHead(e2);
      if e1.InvalidEnvironmentVariable? {
        assert e2.InvalidEnvironmentVariable? by {
          assert MessageHead(e2)[8..11] == "env";
        }
        assert e1.name == Message(e1)[30..];
        assert e2.name == Message(e2)[30..];
      } else if e1.InvalidEndBlock? {
        assert e2.InvalidEndBlock? by {
          assert MessageHead(e2)[8..11] == "end";
        }
        EndBlockMessageLine(e1.line);
        EndBlockMessageLine(e2.line);
      } else if e1.UnclosedBlock? {
        assert e2.UnclosedBlock? by {
          assert MessageHead(e2)[0] == 'A';
        }
      }
    }
  }

  /** A variable name holding the message's own punctuation makes two
      different invalid-value errors read the same. */
  lemma MessageAmbiguous()
    ensures Message(InvalidVariableValue("a", "b') (value= 'c")) == Message(InvalidVariableValue("a (value= 'b')", "c"))
  {
  }

  /** The process environment: variable names and their string values. */
  type Environment = map<string, string>

  /** The data source behind `get_articles`: the rows returned for a requested count. */
  type Fetch = int -> seq<Row>

  /** The loop kinds the source accepts, compared with the upper-cased kind. */
  const LoopKinds: seq<string> := ["PRODUCTS"]

  function Top(stack: seq<Frame>): Frame
    requires |stack| >= 1
  {
    stack[|stack| - 1]
  }

  /** Frames that agree on everything but their buffers. */
  predicate SameHeader(a: Frame, b: Frame) {
    a.count == b.count && a.enumeration == b.enumeration && a.rows == b.rows
  }

  /** The stack with `lines` appended to the top frame's buffer. */
  function AppendToTop(stack: seq<Frame>, lines: seq<string>): (r: seq<Frame>)
    requires |stack| >= 1
    ensures |r| == |stack| && r[..|stack| - 1] == stack[..|stack| - 1]
    ensures SameHeader(Top(r), Top(stack)) && Top(r).buffer == Top(stack).buffer + lines
  {
    stack[..|stack| - 1] + [Top(stack).(buffer := Top(stack).buffer + lines)]
  }

  lemma AppendToTopTwice(stack: seq<Frame>, a: seq<string>, b: seq<string>)
    requires |stack| >= 1
    ensures AppendToTop(AppendToTop(stack, a), b) == AppendToTop(stack, a + b)
  {
    assert Top(stack).buffer + a + b == Top(stack).buffer + (a + b);
  }

  /** The stack after closing frame `g`, which sat on top of `stack`: what
      `g` contributes appended to the buffer of the frame below it, or the
      error closing `g` raised. */
  function CloseOnto(stack: seq<Frame>, g: Frame): Result<seq<Frame>, MacroError>
    requires |stack| >= 1
  {
    match Close(g)
    case Failure(cause) => Failure(CloseError(cause))
    case Success(toAdd) => Success(AppendToTop(stack, toAdd))
  }

  /** Every piece stripped. */
  function StripEach(pieces: seq<string>): (r: seq<string>)
    ensures |r| == |pieces|
    ensures forall i :: 0 <= i < |pieces| ==> r[i] == Strip(pieces[i])
  {
    seq(|pieces|, i requires 0 <= i < |pieces| => Strip(pieces[i]))
  }

  /** The enumeration a begin spec with a comma declares: the first piece is the
      variable, the others its values, each stripped. */
  function EnumerationOf(spec: string): Enumeration
  {
    var pieces := Split(spec, ',');
    Enumeration(Strip(pieces[0]), StripEach(pieces[1..]))
  }

  /** The integer value of an environment variable, as `int(os.environ[name])`. */
  function ReadCount(env: Environment, name: string): Result<int, MacroError>
    requires name in env
  {
    match ParseInt(env[name])
    case Some(n) => Success(n)
    case None => Failure(InvalidVariableValue(name, env[name]))
  }

  /** How a directive changes the number of open frames when it succeeds. */
  function Delta(d: Directive): int
  {
    match d
    case Loop(_, _) => 1
    case Begin(_) => 1
    case End => -1
    case Other => 0
  }

  /** The frame a loop or begin line opens, or the error it raises: a loop
      fetches its rows once, an enumeration repeats once per value, and a
      numeric begin repeats as many times as its variable's value. */
  function Opened(env: Environment, fetch: Fetch, d: Directive): Result<Frame, MacroError>
    requires d.Loop? || d.Begin?
  {
    match d
    case Loop(kind, name) =>
      if name !in env then Failure(MissingLoopVariable(name))
      else
        var n :- ReadCount(env, name);
        if Upper(kind) !in LoopKinds then Failure(UnsupportedLoopKind(kind))
        else Success(Frame(1, None, [], Some(fetch(n))))
    case Begin(spec) =>
      if ',' in spec then Success(Frame(1, Some(EnumerationOf(spec)), [], None))
      else if spec !in env then Failure(InvalidEnvironmentVariable(spec))
      else
        var n :- ReadCount(env, spec);
        Success(Frame(n, None, [], None))
  }

  /** One iteration of the source's loop over the template's lines: the line at
      0-based position `index`, already classified as `d`, applied to the stack.
      What it does to the frames is stated by `StepOpen`, `StepEndAtRoot`,
      `StepClose` and `StepOther`. */
  function Step(env: Environment, fetch: Fetch, stack: seq<Frame>, index: nat, d: Directive, line: string): (r: Result<seq<Frame>, MacroError>)
    requires |stack| >= 1
    ensures r.Success? ==> |r.value| == |stack| + Delta(d) && |r.value| >= 1 && SameHeader(r.value[0], stack[0])
  {
    match d
    case Loop(_, _) =>
      var f :- Opened(env, fetch, d);
      Success(stack + [f])
    case Begin(_) =>
      var f :- Opened(env, fetch, d);
      Success(stack + [f])
    case End =>
      if |stack| <= 1 then Failure(InvalidEndBlock(index + 1))
      else
        var parent := stack[..|stack| - 1];
        assert parent[..|parent| - 1] == stack[..|stack| - 2];
        CloseOnto(parent, Top(stack))
    case Other => Success(AppendToTop(stack, [line]))
  }

  /** A loop or begin line that succeeds opens an empty frame on top of the others. */
  lemma StepOpen(env: Environment, fetch: Fetch, stack: seq<Frame>, index: nat, d: Directive, line: string)
    requires |stack| >= 1 && (d.Loop? || d.Begin?)
    ensures var r := Step(env, fetch, stack, index, d, line);
      r.Success? ==> r.value[..|stack|] == stack && Top(r.value).buffer == []
  {
  }

  /** An end line with only the document frame open is an error naming its 1-based line. */
  lemma StepEndAtRoot(env: Environment, fetch: Fetch, stack: seq<Frame>, index: nat, line: string)
    requires |stack| == 1
    ensures Step(env, fetch, stack, index, End, line) == Failure(InvalidEndBlock(index + 1))
  {
  }

  /** An end line with a block open closes the top frame and appends what it
      contributes to the buffer of the frame below, which becomes the top;
      when closing raises `OverflowError` or `TypeError`, so does the line. */
  lemma StepClose(env: Environment, fetch: Fetch, stack: seq<Frame>, index: nat, line: string)
    requires |stack| >= 2
    ensures var r := Step(env, fetch, stack, index, End, line);
      && (Close(Top(stack)).Failure? ==> r == Failure(CloseError(Close(Top(stack)).error)))
      && (Close(Top(stack)).Success? ==>
            && r.Success?
            && r.value[..|stack| - 2] == stack[..|stack| - 2]
            && SameHeader(Top(r.value), stack[|stack| - 2])
            && Top(r.value).buffer == stack[|stack| - 2].buffer + Close(Top(stack)).value)
  {
  }

  /** Any other line is appended to the top frame's buffer. */
  lemma StepOther(env: Environment, fetch: Fetch, stack: seq<Frame>, index: nat, line: string)
    requires |stack| >= 1
    ensures Step(env, fetch, stack, index, Other, line) == Success(AppendToTop(stack, [line]))
  {
  }

  /** A loop line looks its variable up first (a missing one is a KeyError),
      then reads it as an integer, and only then checks the kind; an accepted
      loop opens a frame over the rows fetched for that count. */
  lemma StepLoop(env: Environment, fetch: Fetch, stack: seq<Frame>, index: nat, kind: string, name: string, line: string)
    requires |stack| >= 1
    ensures var r := Step(env, fetch, stack, index, Loop(kind, name), line);
      && (name !in env ==> r == Failure(MissingLoopVariable(name)))
      && (name in env && ParseInt(env[name]).None? ==> r == Failure(InvalidVariableValue(name, env[name])))
      && (name in env && ParseInt(env[name]).Some? && !IsProductsKind(kind) ==> r == Failure(UnsupportedLoopKind(kind)))
      && (name in env && ParseInt(env[name]).Some? && IsProductsKind(kind) ==>
            r == Success(stack + [Frame(1, None, [], Some(fetch(ParseInt(env[name]).value)))]))
  {
    ProductsKind(kind);
  }

  /** A kind spelling PRODUCTS in any mix of letter cases. */
  predicate IsProductsKind(kind: string) {
    |kind| == 8 && forall i :: 0 <= i < 8 ==> UpperChar(kind[i]) == "PRODUCTS"[i]
  }

  /** The only accepted loop kind is PRODUCTS, in any letter case. */
  lemma ProductsKind(kind: string)
    ensures Upper(kind) in LoopKinds <==> IsProductsKind(kind)
  {
    if IsProductsKind(kind) {
      assert Upper(kind) == "PRODUCTS";
    }
  }

  /** A begin line whose spec has a comma opens an enumerated frame; otherwise
      the spec names an environment variable that must exist and hold an
      integer, the frame's repeat count. */
  lemma StepBegin(env: Environment, fetch: Fetch, stack: seq<Frame>, index: nat, spec: string, line: string)
    requires |stack| >= 1
    ensures var r := Step(env, fetch, stack, index, Begin(spec), line);
      && (',' in spec ==> r == Success(stack + [Frame(1, Some(EnumerationOf(spec)), [], None)]))
      && (',' !in spec && spec !in env ==> r == Failure(InvalidEnvironmentVariable(spec)))
      && (',' !in spec && spec in env && ParseInt(env[spec]).None? ==> r == Failure(InvalidVariableValue(spec, env[spec])))
      && (',' !in spec && spec in env && ParseInt(env[spec]).Some? ==>
            r == Success(stack + [Frame(ParseInt(env[spec]).value, None, [], None)]))
  {
  }

  /** The enumeration of a spec written as comma-separated pieces: the first
      piece, stripped, is the variable and the others, stripped, its values. */
  lemma EnumerationOfPieces(pieces: seq<string>)
    requires |pieces| >= 2
    requires forall i :: 0 <= i < |pieces| ==> ',' !in pieces[i]
    ensures ',' in Join(pieces, [','])
    ensures var e := EnumerationOf(Join(pieces, [',']));
      && e.variable == Strip(pieces[0])
      && |e.values| == |pieces| - 1
      && forall i :: 0 <= i < |e.values| ==> e.values[i] == Strip(pieces[i + 1])
  {
    SplitJoin(pieces, ',');
    var s := Join(pieces, [',']);
    assert s == pieces[0] + [','] + Join(pieces[1..], [',']);
    assert s[|pieces[0]|] == ',';
  }

  /** A template line together with its classification. */
  datatype TemplateLine = TemplateLine(directive: Directive, text: string)

  /** Every line classified, in order. Classification depends on the line
      alone, so classifying all lines up front is the same as classifying each
      in turn; `TagAt` locates each line's classification. */
  function Tag(lines: seq<string>): (r: seq<TemplateLine>)
    ensures |r| == |lines|
    ensures forall i :: 0 <= i < |lines| ==> r[i].text == lines[i]
  {
    seq(|lines|, i requires 0 <= i < |lines| => TemplateLine(Classify(lines[i]), lines[i]))
  }

  /** Position `i` of the classified lines holds line `i` and its directive. */
  lemma TagAt(lines: seq<string>, i: nat)
    requires i < |lines|
    ensures Tag(lines)[i] == TemplateLine(Classify(lines[i]), lines[i])
  {
  }

  /** Classifying lines one after another classifies each part. */
  lemma TagAppend(a: seq<string>, b: seq<string>)
    ensures Tag(a + b) == Tag(a) + Tag(b)
  {
    forall i | 0 <= i < |a| + |b| ensures Tag(a + b)[i] == (Tag(a) + Tag(b))[i] {
      TagAt(a + b, i);
      if i < |a| {
        TagAt(a, i);
      } else {
        TagAt(b, i - |a|);
      }
    }
  }

  /** Classifying a prefix of the lines classifies the same lines. */
  lemma TagPrefix(lines: seq<string>, k: nat)
    requires k <= |lines|
    ensures Tag(lines)[..k] == Tag(lines[..k])
  {
    assert lines == lines[..k] + lines[k..];
    TagAppend(lines[..k], lines[k..]);
  }

  lemma TagSingle(line: string)
    ensures Tag([line]) == [TemplateLine(Classify(line), line)]
  {
    assert [line][1..] == [];
  }

  /** The texts of the classified lines are the lines. */
  lemma TagTexts(lines: seq<string>)
    ensures Texts(Tag(lines)) == lines
  {
  }

  /** Lines that are not directives are classified as such. */
  lemma TagPlain(lines: seq<string>)
    requires forall i :: 0 <= i < |lines| ==> Classify(lines[i]) == Other
    ensures forall i :: 0 <= i < |lines| ==> Tag(lines)[i].directive == Other
  {
    forall i | 0 <= i < |lines|
      ensures Tag(lines)[i].directive == Other
    {
      TagAt(lines, i);
    }
  }

  /** The stack after the lines, starting from `stack` with the first line at
      0-based position `index`; the first failing line stops the expansion. */
  function Process(env: Environment, fetch: Fetch, stack: seq<Frame>, lines: seq<TemplateLine>, index: nat): (r: Result<seq<Frame>, MacroError>)
    requires |stack| >= 1
    ensures r.Success? ==> |r.value| >= 1 && SameHeader(r.value[0], stack[0])
    decreases |lines|
  {
    if lines == [] then Success(stack)
    else
      var next :- Step(env, fetch, stack, index, lines[0].directive, lines[0].text);
      Process(env, fetch, next, lines[1..], index + 1)
  }

  /** `run_preprocessor` on a template given as its lines: the expanded text, or
      the first error. At the end exactly the root frame must be left, and the
      text is its buffer repeated by its count, which is always 1. */
  function Run(env: Environment, fetch: Fetch, lines: seq<string>): (r: Result<string, MacroError>)
    ensures var p := Process(env, fetch, [Root], Tag(lines), 0);
      && (p.Failure? ==> r == Failure(p.error))
      && (p.Success? && |p.value| != 1 ==> r == Failure(UnclosedBlock))
      && (p.Success? && |p.value| == 1 ==> r == Success(Concat(p.value[0].buffer)))
  {
    var stack :- Process(env, fetch, [Root], Tag(lines), 0);
    if |stack| != 1 then Failure(UnclosedBlock)
    else
      RepeatOnce(stack[0].buffer);
      Success(Concat(Repeat(stack[0].buffer, stack[0].count)))
  }

  /** `run_preprocessor` on a template file's text, read line by line. */
  function Expand(env: Environment, fetch: Fetch, text: string): Result<string, MacroError>
  {
    Run(env, fetch, SplitLines(text))
  }

  /** The text of classified lines. */
  function Texts(lines: seq<TemplateLine>): (r: seq<string>)
    ensures |r| == |lines|
    ensures forall i :: 0 <= i < |lines| ==> r[i] == lines[i].text
  {
    seq(|lines|, i requires 0 <= i < |lines| => lines[i].text)
  }

  // ---------------------------------------------------------------------------
  // Composition

  /** Processing stops at a failing first line, and otherwise goes on from the
      stack that line leaves. */
  lemma ProcessFirst(env: Environment, fetch: Fetch, stack: seq<Frame>, lines: seq<TemplateLine>, index: nat)
    requires |stack| >= 1 && |lines| >= 1
    ensures var step := Step(env, fetch, stack, index, lines[0].directive, lines[0].text);
      && (step.Failure? ==> Process(env, fetch, stack, lines, index) == Failure(step.error))
      && (step.Success? ==> Process(env, fetch, stack, lines, index) == Process(env, fetch, step.value, lines[1..], index + 1))
  {
  }

  /** Processing two runs of lines one after the other is processing their
      concatenation. */
  lemma {:induction false} ProcessAppend(env: Environment, fetch: Fetch, stack: seq<Frame>, a: seq<TemplateLine>, b: seq<TemplateLine>, index: nat)
    requires |stack| >= 1
    ensures var p := Process(env, fetch, stack, a, index);
      && (p.Failure? ==> Process(env, fetch, stack, a + b, index) == p)
      && (p.Success? ==> Process(env, fetch, stack, a + b, index) == Process(env, fetch, p.value, b, index + |a|))
    decreases |a|
  {
    if a == [] {
      assert a + b == b;
    } else {
      ProcessCons(env, fetch, stack, a, b, index);
      match Step(env, fetch, stack, index, a[0].directive, a[0].text)
      case Success(next) =>
        TailPosition(a, index);
        ProcessAppend(env, fetch, next, a[1..], b, index + 1);
      case Failure(_) =>
    }
  }

  /** The position after the lines, counted from their second line. */
  lemma TailPosition<T>(a: seq<T>, index: nat)
    requires |a| >= 1
    ensures index + 1 + |a[1..]| == index + |a|
  {
  }

  lemma ProcessCons(env: Environment, fetch: Fetch, stack: seq<Frame>, a: seq<TemplateLine>, b: seq<TemplateLine>, index: nat)
    requires |stack| >= 1 && |a| >= 1
    ensures var step := Step(env, fetch, stack, index, a[0].directive, a[0].text);
      && (step.Failure? ==>
            && Process(env, fetch, stack, a, index) == Failure(step.error)
            && Process(env, fetch, stack, a + b, index) == Failure(step.error))
      && (step.Success? ==>
            && Process(env, fetch, stack, a, index) == Process(env, fetch, step.value, a[1..], index + 1)
            && Process(env, fetch, stack, a + b, index) == Process(env, fetch, step.value, a[1..] + b, index + 1))
  {
    var ab := a + b;
    assert ab[0] == a[0];
    assert ab[1..] == a[1..] + b;
    ProcessFirst(env, fetch, stack, a, index);
    ProcessFirst(env, fetch, stack, ab, index);
  }

  /** Lines that are not directives are appended, in order, to the top frame's buffer. */
  lemma {:induction false} ProcessPlain(env: Environment, fetch: Fetch, stack: seq<Frame>, lines: seq<TemplateLine>, index: nat)
    requires |stack| >= 1
    requires forall i :: 0 <= i < |lines| ==> lines[i].directive == Other
    ensures Process(env, fetch, stack, lines, index) == Success(AppendToTop(stack, Texts(lines)))
    decreases |lines|
  {
    if lines == [] {
      assert Top(stack).(buffer := Top(stack).buffer + []) == Top(stack);
      assert stack[..|stack| - 1] + [Top(stack)] == stack;
    } else {
      var next := AppendToTop(stack, [lines[0].text]);
      ProcessPlain(env, fetch, next, lines[1..], index + 1);
      AppendToTopTwice(stack, [lines[0].text], Texts(lines[1..]));
      assert [lines[0].text] + Texts(lines[1..]) == Texts(lines);
    }
  }

  /** A run that ends with only the document frame open yields its buffer, joined. */
  lemma RunRootOnly(env: Environment, fetch: Fetch, lines: seq<string>, buffer: seq<string>)
    requires Process(env, fetch, [Root], Tag(lines), 0) == Success(AppendToTop([Root], buffer))
    ensures Run(env, fetch, lines) == Success(Concat(buffer))
  {
    var stack := AppendToTop([Root], buffer);
    assert |stack| == 1 && Top(stack) == stack[0];
    assert Root.buffer + buffer == buffer;
  }

  /** A template without directives expands to its own lines, joined. */
  lemma RunPlain(env: Environment, fetch: Fetch, lines: seq<string>)
    requires forall i :: 0 <= i < |lines| ==> Classify(lines[i]) == Other
    ensures Run(env, fetch, lines) == Success(Concat(lines))
  {
    TagPlain(lines);
    ProcessPlain(env, fetch, [Root], Tag(lines), 0);
    TagTexts(lines);
    RunRootOnly(env, fetch, lines, lines);
  }

  /** A template text without directive lines expands to itself. */
  lemma ExpandPlain(env: Environment, fetch: Fetch, text: string)
    requires forall line :: line in SplitLines(text) ==> Classify(line) == Other
    ensures Expand(env, fetch, text) == Success(text)
  {
    var lines := SplitLines(text);
    assert forall i :: 0 <= i < |lines| ==> lines[i] in lines;
    RunPlain(env, fetch, lines);
  }
}
