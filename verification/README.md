# Template macro preprocessor

A Dafny model of the template preprocessor in `runtests.py`. It rewrites
`.meta_feature` templates into plain feature files before the test runner
starts. The model covers its two functions: `inject_variable`, which does
`{{key}}` placeholder substitution, and `run_preprocessor`, which is the
one-pass block expander.

The expander reads a template line by line and keeps a stack of frames. The
bottom frame stands for the whole document. Each frame holds:

- a repeat count;
- an optional enumeration (a variable and its values);
- a buffer of collected lines;
- optional rows fetched from the product database.

After stripping, each line is one of four kinds:

- `#loop{KIND, VAR}` pushes a frame holding the rows fetched for the integer in
  the environment variable `VAR`.
- `#begin{SPEC}` pushes one of two frames. With a comma in SPEC it is an
  enumeration frame. Otherwise it is a repeat frame whose count is the integer
  in the environment variable `SPEC`.
- `#end` pops the top frame. The frame's buffer is repeated, expanded over the
  enumerated values and then over the rows, and appended to the frame below.
  Repeating multiplies a list by the count, and Python raises `OverflowError`
  when the count does not fit a 64-bit index, even for an empty list. Each
  substitution calls `inject_variable(line, **bindings)`. A binding whose key
  is `line` clashes with the function's own first parameter, and Python raises
  `TypeError` before the function runs. The model names these outcomes
  `CloseError(CountOverflow)` and `CloseError(ArgumentClash)`.
- Any other line goes verbatim into the top frame's buffer.

At the end exactly one frame must be left, and its buffer, joined, is the
output.

Modules, one file each:

- `Results` (`results.dfy`): `Option` and `Result`.
- `Text` (`text.dfy`): the Python string operations the code uses. These are
  `strip`, `split`, `join`, `upper`, splitting a file into lines, and `int()`
  on decimal strings.
- `Substitution` (`substitution.dfy`): `str.replace` and `inject_variable`.
- `Directives` (`directives.dfy`): the three regular expressions of lines
  50-52, tried in the source's order. They are written as small matchers. Each
  matcher is proved sound and complete against the shape its expression
  describes, including the group a backtracking matcher captures.
- `Frames` (`frames.dfy`): the frame tuple and what closing a frame produces.
- `Preprocessor` (`preprocessor.dfy`): the error kinds and their messages.
  The kinds are the source's `SyntaxException` cases, the `KeyError` for a
  missing loop variable, the `AssertionError` for an unsupported loop kind, and
  the `OverflowError` and `TypeError` closing a block can raise.
  - `Step` is one iteration of the line loop.
  - `Process` folds `Step` over the lines.
  - `Run` adds the end-of-input check and the final join.
- `Nesting` (`nesting.dfy`): stack depth, where end-block errors come from, and
  block composition. Composition means a block expands the same way whatever
  is open beneath it.
- `Expansion` (`expansion.dfy`): whole-template results. It covers when a
  template expands, end-block error positions, and one-block templates.
- `Runner` (`runner.dfy`): `run_preprocessor` written as the source writes it,
  as loops over a mutable stack, proved equal to `Run`.

The process environment is a parameter, `map<string, string>`. The database
behind `get_articles` is another parameter, `fetch: int -> seq<Row>`. A row is
an ordered sequence of `(field, value)` pairs.

## Model

| member | source | states |
|---|---|---|
| Substitution.Inject | runtests.py:30-34 | the body of `inject_variable`: for each binding in order, every `{{key}}` in the line becomes the bound value (the `TypeError` a `line` key raises at the call is stated by `ExpandRowsFails` and `CloseFails`) |
| Substitution.InjectVariable | runtests.py:30-34 | the loop over the bindings, rewriting the line one binding at a time, computes `Inject` of the line |
| Substitution.InjectAbsent | runtests.py:30-34 | a line that holds no `{{key}}` for any given key comes back unchanged; in particular an empty binding set is the identity |
| Substitution.InjectOne | runtests.py:107 | a one-binding call, as in the enumeration branch, is exactly one `replace` of that key's placeholder |
| Substitution.BindsLineOne | runtests.py:107 | a one-binding call, as the enumeration branch makes, clashes with the `line` parameter exactly when the enumerated variable is named `line` |
| Substitution.ReplaceIsJoinOfSplit | runtests.py:33 | `line.replace(p, r)` equals `r.join(line.split(p))`: the left-to-right non-overlapping replacement agrees with the independent split-and-join definition |
| Substitution.ReplaceAbsent | runtests.py:33 | a line in which the pattern does not occur is returned unchanged |
| Substitution.SplitOn | runtests.py:33 | the pieces between pattern occurrences, at least one, join back with the pattern into the original line, and no piece holds the pattern |
| Text.Strip | runtests.py:47 | the stripped line neither starts nor ends with whitespace, and a line with no whitespace at either end is its own strip |
| Text.StripSlice | runtests.py:47 | the stripped line is a slice of the line, and everything before and after that slice is whitespace |
| Text.Split | runtests.py:73 | `spec.split(',')` gives at least one piece, none holding a comma, and the pieces joined with commas give back the spec |
| Text.SplitJoin | runtests.py:73 | splitting comma-free pieces joined by commas gives back the same pieces |
| Text.ParseIntToString | runtests.py:84 | every integer's decimal spelling, with a minus sign when negative, is read back by `int()` as that integer |
| Text.ParseDigits | runtests.py:84 | `int()` reads a string of decimal digits as their value |
| Text.ParseNegative | runtests.py:84 | `int()` reads a minus sign followed by decimal digits as the negated value |
| Text.SplitLines | runtests.py:44 | iterating a file gives lines that concatenate to the file's text, each ending in its newline except possibly the last, with no newline inside |
| Text.ConcatAppend | runtests.py:127 | joining two runs of lines one after the other is joining their concatenation |
| Directives.MatchNameSound | runtests.py:50 | a name the loop-pattern matcher returns is the group a backtracking match captures: the longest leading whitespace, then the longest name |
| Directives.MatchNameComplete | runtests.py:50 | every segment of the shape `\s*[^} ),]+\s*` yields a name |
| Directives.MatchMacroSound | runtests.py:51 | the spec returned is the `macro` group a backtracking match captures, and it runs to the segment's end, so trailing whitespace stays in it |
| Directives.MatchMacroComplete | runtests.py:51 | every segment of the shape `\s*[^}]+\s*` yields a spec |
| Directives.MatchLoopSound | runtests.py:50 | a recognised loop line is `#loop{` + name segment + `,` + name segment + `}`, and the kind and variable are those segments' captured groups |
| Directives.MatchLoopComplete | runtests.py:50 | every line of that shape is recognised as a loop line |
| Directives.MatchBeginSound | runtests.py:51 | a recognised begin line is `#begin{` + segment + `}`, and the spec is the segment's captured group |
| Directives.MatchBeginComplete | runtests.py:51 | every line of that shape is recognised as a begin line |
| Directives.ClassifyLoopSound | runtests.py:47-54 | a line classified as a loop has a stripped form with the loop shape, and the kind and variable are its captured names |
| Directives.ClassifyLoopComplete | runtests.py:47-54 | every line whose stripped form has the loop shape is classified as a loop |
| Directives.ClassifyBeginSound | runtests.py:47-67 | a line classified as a begin has a stripped form with the begin shape, and the spec is its captured group |
| Directives.ClassifyBeginComplete | runtests.py:47-67 | every line whose stripped form has the begin shape is a begin, since the loop pattern is tried first but cannot match it |
| Directives.ClassifyEnd | runtests.py:52 | a line closes a block exactly when its stripped form starts with `#end`, because the end pattern has no end anchor |
| Directives.ClassifyPlain | runtests.py:47-54 | a line whose stripped form does not start with `#` is never a directive |
| Frames.Repeat | runtests.py:97 | `n * lines` has `n` times the lines' length, and no lines at all when `n <= 0` (the `OverflowError` for a count outside the index range is checked by `Close` before it repeats) |
| Frames.RepeatAt | runtests.py:97 | line `j` of copy `k` of the repetition is line `j` of the repeated lines |
| Frames.ForEachRowAt | runtests.py:105-115 | line `j` of block `k` of the row-by-row expansion is line `j` with row `k` substituted: rows in order, and lines in order within a row |
| Frames.ForEachRowSnoc | runtests.py:114-115 | one more row adds one more substituted block at the end |
| Frames.ExpandRowsFails | runtests.py:105-115 | expanding lines over rows fails exactly when some `inject_variable` call, for some row and some line, raises `TypeError` |
| Frames.ExpandRowsValues | runtests.py:105-115 | when no call raises, line `j` of block `k` of the expansion is what the call for line `j` and row `k` returns |
| Frames.ExpandRowsLoop | runtests.py:105-115 | the source's nested loops over rows and lines, stopping at the first call that raises, compute the expansion |
| Frames.CloseFails | runtests.py:95-117 | closing a frame raises `OverflowError` exactly when its count does not fit a 64-bit index; otherwise it raises `TypeError` exactly when it has lines to substitute and either its enumerated variable is `line` with at least one value, or some fetched row binds `line` and the enumeration, if any, has values |
| Frames.CloseRepeat | runtests.py:97 | a count frame never substitutes, so closing it yields its buffer repeated, or raises `OverflowError` when the count does not fit a 64-bit index |
| Frames.CloseCountEmpty | runtests.py:97 | closing a count frame whose count is `<= 0` contributes nothing, unless the count is below the index range, when it raises `OverflowError` |
| Frames.CloseCount | runtests.py:97-119 | closing a count frame with count `n >= 1` succeeds exactly when `n` fits a 64-bit index, fails otherwise with `OverflowError`, and on success contributes `n` copies of its buffer, in order: length `n` times the buffer's, and line `j` of copy `k` is buffer line `j` |
| Frames.CloseEnumerated | runtests.py:100-109 | closing an enumeration frame raises `TypeError` exactly when its variable is `line` and it has both values and lines; otherwise it yields the buffer expanded over the values |
| Frames.CloseEnumeration | runtests.py:72-109 | closing an enumeration frame over `line` raises `TypeError`; over any other variable it contributes, per value in listed order, the whole buffer with `{{var}}` replaced by that value: length values times buffer |
| Frames.CloseRows | runtests.py:112-117 | closing a loop frame is expanding its buffer over its fetched rows |
| Frames.CloseLoop | runtests.py:112-117 | closing a loop frame raises `TypeError` exactly when some fetched row binds `line`; otherwise it contributes, per fetched row in order, the buffer with that row's fields substituted: length rows times buffer |
| Frames.CloseLength | runtests.py:95-117 | when closing succeeds, the contribution's length is the buffer length times the count (0 if not positive), times the number of values, times the number of rows |
| Frames.CloseFrame | runtests.py:95-117 | the source's end-block branch, with its nested loops, computes what `Close` states, `OverflowError` and `TypeError` included |
| Frames.RepeatOnce | runtests.py:127 | repeating by 1 is the identity, so the root frame's count of 1 does not change the output |
| Preprocessor.EndBlockMessageLine | runtests.py:93 | the end-block message names the line, and the number written in it reads back as that line |
| Preprocessor.MessageKind | runtests.py:61-125 | equal messages come from the same error, except that two invalid-value errors can share a message |
| Preprocessor.MessageAmbiguous | runtests.py:86 | a variable name holding the message's punctuation makes two different invalid-value errors read the same |
| Preprocessor.EnumerationOfPieces | runtests.py:72-78 | for a spec written as comma-separated comma-free pieces, the variable is the first piece stripped and the values are the other pieces stripped, in order |
| Preprocessor.AppendToTop | runtests.py:119-122 | extending the top frame's buffer keeps every other frame and the top frame's count, enumeration and rows |
| Preprocessor.AppendToTopTwice | runtests.py:119-122 | appending twice is appending the concatenation |
| Preprocessor.Step | runtests.py:54-122 | a successful line changes the number of frames by +1 for an opening directive, -1 for an end and 0 otherwise; at least one frame is left, and the bottom frame's header is kept |
| Preprocessor.StepLoop | runtests.py:54-65 | a loop line first looks the variable up (missing: KeyError), then reads it with `int()` (failure: invalid value), then checks the kind against PRODUCTS in any case (else: assertion failure), and otherwise pushes an empty frame over the rows fetched for that count |
| Preprocessor.ProductsKind | runtests.py:62-64 | a kind is accepted exactly when it spells PRODUCTS in any mix of letter cases |
| Preprocessor.StepBegin | runtests.py:67-88 | a begin spec with a comma pushes an enumeration frame; otherwise a missing variable is the invalid-environment-variable error, a non-integer value is the invalid-value error, and an integer value `n` pushes an empty frame with count `n` |
| Preprocessor.StepOpen | runtests.py:65-88 | an opening line that succeeds keeps the frames below and pushes a frame with an empty buffer |
| Preprocessor.StepEndAtRoot | runtests.py:92-93 | an end line with only the document frame open fails, naming its 1-based line number |
| Preprocessor.StepClose | runtests.py:95-119 | an end line with a block open raises the `OverflowError` or `TypeError` closing the top frame raises; otherwise it pops the top frame, keeps everything below, and appends the top frame's contribution to the new top's buffer |
| Preprocessor.StepOther | runtests.py:121-122 | any other line is appended verbatim to the top frame's buffer |
| Preprocessor.TagAppend | runtests.py:44-52 | classifying lines one run after another classifies the concatenation |
| Preprocessor.TagPrefix | runtests.py:44-52 | the classification of a prefix is the prefix of the classification |
| Preprocessor.Process | runtests.py:44-122 | a successful run of lines leaves at least one frame, and the bottom frame's header unchanged |
| Preprocessor.ProcessFirst | runtests.py:44-122 | processing stops with a failing first line's error and otherwise goes on from the stack that line leaves |
| Preprocessor.ProcessAppend | runtests.py:44-122 | processing `a + b` fails as `a` does, or else is processing `b` from the stack `a` leaves, with line numbers continuing |
| Preprocessor.ProcessPlain | runtests.py:121-122 | lines without directives are appended, in order, to the top frame's buffer |
| Preprocessor.Run | runtests.py:39-127 | a line error is the run's error; lines accepted with more than one frame left are the unclosed-block error; otherwise the output is the document frame's buffer, joined |
| Preprocessor.RunRootOnly | runtests.py:124-127 | a run that leaves only the document frame, holding `buffer`, outputs `buffer` joined |
| Preprocessor.RunPlain | runtests.py:121-127 | a template without directive lines expands to the concatenation of its lines, newlines included |
| Preprocessor.ExpandPlain | runtests.py:39-127 | a template text whose lines are all plain expands to itself |
| Nesting.DepthAppend | runtests.py:54-122 | the depth of two runs one after the other is the sum of their depths |
| Nesting.StepFailure | runtests.py:54-93 | only an end line raises the end-block error, and only when the document frame is the one open, naming its 1-based line |
| Nesting.ProcessDepth | runtests.py:44-122 | after a successful run of lines the stack has as many frames as before plus the lines' depth |
| Nesting.ProcessPrefixDepth | runtests.py:92-95 | in a successful run no prefix closes more blocks than were open: the stack never drops below one frame |
| Nesting.ProcessEndError | runtests.py:90-93 | an end-block error names the 1-based position of an end line, and the lines before it, processed, leave exactly one frame |
| Nesting.ProcessEndErrorFromStart | runtests.py:90-93 | the same, for lines processed from the start of a template |
| Nesting.ProcessEndAtRoot | runtests.py:90-93 | conversely, an end line reached with one frame open fails with the end-block error naming its position, whatever follows it |
| Nesting.StepUnder | runtests.py:54-122 | a line that succeeds on a stack does the same on top of any further frames |
| Nesting.ProcessUnder | runtests.py:44-122 | a run of lines that succeeds on a stack does the same on top of any further frames |
| Nesting.ProcessBlock | runtests.py:54-119 | a whole block (opening line, then a body that leaves one frame `g` when started on the block's frame alone, then the end line) closes `g` onto the frame open before it: its contribution is appended there, or the run raises the `OverflowError` or `TypeError` closing `g` raises; so nested blocks compose |
| Nesting.PlainBody | runtests.py:121-122 | a body without directives stays in the block's frame, appended to its buffer |
| Expansion.RunBalanced | runtests.py:124-127 | a template expands exactly when every line is accepted and the blocks balance; accepted lines with blocks still open give the unclosed-block error; an accepted run never has negative depth |
| Expansion.RunError | runtests.py:39-125 | every error other than an unclosed block is the error of some line |
| Expansion.RunEndError | runtests.py:90-93 | an end-block error for line `n` means line `n` is an end line and lines `1..n-1` leave only the document frame open |
| Expansion.RunEndAtRoot | runtests.py:90-93 | conversely, an end line at 1-based position `n` reached with only the document frame open makes the run fail with that line number |
| Expansion.PlainBlock | runtests.py:95-122 | a block with a plain body closes the frame holding the body onto the frame below, appending its contribution or raising the `OverflowError` or `TypeError` closing it raises |
| Expansion.RepeatBlock | runtests.py:80-97 | `#begin{VAR}` ... `#end`, with VAR holding `n`, appends the body `n` times over when `n` fits a 64-bit index, and raises `OverflowError` otherwise |
| Expansion.EnumerationBlock | runtests.py:72-109 | `#begin{VAR, V1, ..., Vk}` ... `#end` raises `TypeError` when VAR is `line` and there are values and body lines; otherwise it appends the body once per value, `{{VAR}}` replaced |
| Expansion.LoopBlock | runtests.py:54-117 | `#loop{products, VAR}` ... `#end` raises `TypeError` when the body is not empty and some row fetched for VAR's integer binds `line`; otherwise it appends the body once per row, each row's fields substituted |
| Expansion.TagBlock | runtests.py:44-52 | classifying a one-block template classifies its opening line, body and end line separately |
| Expansion.RunRepeatTemplate | runtests.py:39-127 | a template that is one repeat block over plain lines expands to those lines `n` times over, joined, when `n` fits a 64-bit index, and raises `OverflowError` otherwise |
| Expansion.RunEnumerationTemplate | runtests.py:39-127 | a template that is one enumeration block raises `TypeError` when the variable is `line` and there are values and body lines; otherwise it expands to the body once per value with `{{VAR}}` replaced, joined |
| Expansion.RunLoopTemplate | runtests.py:39-127 | a template that is one loop block raises `TypeError` when the body is not empty and some fetched row binds `line`; otherwise it expands to the body once per fetched row with its fields substituted, joined |
| Runner.ProcessLines | runtests.py:44-122 | the loop over the lines with a mutable stack, returning at the first error, computes `Process` from the document frame |

## Left out

- `get_sql_query` and `get_articles` (runtests.py:13-28) query PostgreSQL. They are replaced by the `fetch` parameter, which maps a requested count to rows. The model assumes that every fetched value is a string. How many rows there are is not assumed.
- Opening the template file (runtests.py:40) is left out. `Expand` takes the file's text and `Run` takes its lines.
- The `__main__` block (runtests.py:129-172) is left out: the directory walk, the file renaming and writing, the printing, and running the test tool. It is all file-system and process glue.
- Regular expressions are not interpreted in general. The three patterns of lines 50-52 are each written as a matcher. The `Directives` lemmas relate each matcher to its pattern's shape and to the groups it captures.
- Text.ParseInt: models `int()` on a byte string in base 10: surrounding whitespace, an optional sign, optional whitespace after the sign, and decimal digits. Nothing else is accepted.
- Text.IsSpace: whitespace is the six ASCII whitespace characters, as for Python 2 byte strings. The case mapping likewise covers ASCII letters only.
- Exception types are modelled as distinct `MacroError` kinds. The source's `SyntaxException` corresponds to the kinds for which `IsSyntaxError` holds. A missing `#loop` variable is a `KeyError` in the source, and an unsupported loop kind is an `AssertionError`; both have their own kinds. Closing a block can raise `OverflowError`, when the count does not fit a 64-bit index (runtests.py:97), or `TypeError`, when a `line` binding is passed to `inject_variable` (runtests.py:107 and 115). Both are `CloseError` kinds. The driver catches only `SyntaxException`, so the other kinds stop the whole program; the model does not say which exceptions the driver catches. `MemoryError` is not modelled: a count that fits the index range but asks for more lines than memory holds yields the repeated lines in the model.
- A fetched row is a Python dict. It is modelled as a sequence of `(field, value)` pairs in the order substitution applies them. Dict iteration order is not modelled. Row values are modelled as strings. The cursor can return SQL NULL (`None`), for instance for `default_code`, and `replace` would then raise `TypeError` at runtests.py:115; the model does not cover this. Environment values are strings, as the process environment gives them; the code passes them to `int()` at runtests.py:59 and 84.
- The index range `FitsIndex` uses is that of a 64-bit build, where Python's index-sized integers are 64 bits wide. A 32-bit build has a narrower range and is not modelled.
- Lines are classified up front (`Tag`) rather than one at a time inside the loop. Classification depends only on the line, so the result is the same.
- `#begin{3}`: a count spec without a comma is always looked up in the environment, as the code does at runtests.py:80-88. A literal number is not taken as the count.
- Closing a frame applies the enumeration and then the rows, as the code's two `if` statements do (runtests.py:100-117). No frame has both, so the order does not matter.
- Inject: models the body of `inject_variable`. The `TypeError` Python raises for a binding named `line` happens at the call, before the body runs, so it is modelled by `InjectCall` and stated by `ExpandRowsFails` and `CloseFails`, not by `Inject`.
- LoopBlock: assumes fetching rows always succeeds and every fetched value is a non-NULL string; a NULL value would make `replace` raise `TypeError` at runtests.py:115. A database error, or the negative `LIMIT` the query gets when the loop variable's integer is negative (runtests.py:28 and 65), is not modelled.
- RunLoopTemplate: assumes fetching rows always succeeds and every fetched value is a non-NULL string, as for `LoopBlock`; `fetch` returns rows for every integer, negative ones included.
