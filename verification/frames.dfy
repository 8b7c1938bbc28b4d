/**
  Open blocks and what closing one produces (runtests.py lines 42 and 95-117).
 */
module Frames {
  import opened Results
  import opened Substitution

  /** One row fetched for a loop block: field names and their values, in order. */
  type Row = Bindings

  /** The variable of an enumerated block and the values it takes, in listed order. */
  datatype Enumeration = Enumeration(variable: string, values: seq<string>)

  /** One open block: the source's tuple (repeat count, enumeration, collected
      lines, fetched rows). */
  datatype Frame = Frame(count: int, enumeration: Option<Enumeration>, buffer: seq<string>, rows: Option<seq<Row>>)

  /** Why closing a block raises instead of contributing lines. */
  datatype CloseFailure =
    | CountOverflow  // OverflowError from `nbvars * lines`, line 97
    | ArgumentClash  // TypeError calling inject_variable with a `line` binding, lines 107 and 115

  /** The counts a list can be multiplied by: Python's index-sized integers,
      64 bits wide on a 64-bit build. */
  predicate FitsIndex(n: int) {
    -0x8000_0000_0000_0000 <= n <= 0x7fff_ffff_ffff_ffff
  }

  /** The frame standing for the whole document before any line is read. */
  const Root: Frame := Frame(1, None, [], None)

  /** `n * lines` on a Python list: `n` copies of the lines, one after another;
      nothing at all when `n <= 0`. The copies are located by `RepeatAt`. */
  function Repeat(lines: seq<string>, n: int): (r: seq<string>)
    ensures |r| == if n <= 0 then 0 else n * |lines|
    decreases n
  {
    if n <= 0 then [] else lines + Repeat(lines, n - 1)
  }

  /** Line `j` of copy `k` of a repetition is line `j` of the repeated lines. */
  lemma {:induction false} RepeatAt(lines: seq<string>, n: int, k: int, j: int)
    requires 0 <= k < n && 0 <= j < |lines|
    ensures k * |lines| + j < |Repeat(lines, n)|
    ensures Repeat(lines, n)[k * |lines| + j] == lines[j]
    decreases k
  {
    var rest := Repeat(lines, n - 1);
    if k > 0 {
      RepeatAt(lines, n - 1, k - 1, j);
      assert k * |lines| + j == |lines| + ((k - 1) * |lines| + j);
    }
  }

  /** Every line with one row's bindings substituted. */
  function InjectAll(lines: seq<string>, row: Row): (r: seq<string>)
    ensures |r| == |lines|
    ensures forall j :: 0 <= j < |lines| ==> r[j] == Inject(lines[j], row)
  {
    seq(|lines|, j requires 0 <= j < |lines| => Inject(lines[j], row))
  }

  /** For each row in order, the whole block of lines with that row substituted.
      The blocks are located by `ForEachRowAt`. */
  function ForEachRow(lines: seq<string>, rows: seq<Row>): (r: seq<string>)
    ensures |r| == |rows| * |lines|
  {
    if rows == [] then [] else InjectAll(lines, rows[0]) + ForEachRow(lines, rows[1..])
  }

  /** Line `j` of block `k` is line `j` under row `k`. */
  lemma {:induction false} ForEachRowAt(lines: seq<string>, rows: seq<Row>, k: int, j: int)
    requires 0 <= k < |rows| && 0 <= j < |lines|
    ensures k * |lines| + j < |ForEachRow(lines, rows)|
    ensures ForEachRow(lines, rows)[k * |lines| + j] == Inject(lines[j], rows[k])
    decreases k
  {
    if k > 0 {
      ForEachRowAt(lines, rows[1..], k - 1, j);
      assert k * |lines| + j == |lines| + ((k - 1) * |lines| + j);
    }
  }

  /** The rows an enumeration stands for: one binding of its variable per value. */
  function EnumerationRows(e: Enumeration): (rows: seq<Row>)
    ensures |rows| == |e.values|
    ensures forall i :: 0 <= i < |e.values| ==> rows[i] == [(e.variable, e.values[i])]
  {
    seq(|e.values|, i requires 0 <= i < |e.values| => [(e.variable, e.values[i])])
  }

  /** The source's nested loops that call `inject_variable(line, **row)` for
      every row in order and, within a row, for every line in order. The
      first call whose row binds `line` raises `TypeError`, so the
      loops fail exactly when there is a line and some row binds `line`.
      Otherwise the result is every block of substituted lines. */
  function ExpandRows(lines: seq<string>, rows: seq<Row>): Result<seq<string>, CloseFailure>
  {
    if lines != [] && exists k | 0 <= k < |rows| :: BindsLine(rows[k]) then Failure(ArgumentClash)
    else Success(ForEachRow(lines, rows))
  }

  /** The lines a frame contributes to its parent when its block is closed:
      the buffer repeated by the count, then expanded over the enumerated values,
      then over the fetched rows. A count outside the index range raises
      `OverflowError` before anything is substituted; a substitution with a
      `line` binding raises `TypeError`. */
  function Close(f: Frame): Result<seq<string>, CloseFailure>
  {
    if !FitsIndex(f.count) then Failure(CountOverflow)
    else
      var repeated := Repeat(f.buffer, f.count);
      var enumerated :- if f.enumeration.Some? then ExpandRows(repeated, EnumerationRows(f.enumeration.value)) else Success(repeated);
      if f.rows.Some? then ExpandRows(enumerated, f.rows.value) else Success(enumerated)
  }

  /** Expanding over rows fails exactly when some call of `inject_variable`
      made for a row and a line fails. */
  lemma ExpandRowsFails(lines: seq<string>, rows: seq<Row>)
    ensures ExpandRows(lines, rows).Failure? <==>
      exists k, j :: 0 <= k < |rows| && 0 <= j < |lines| && InjectCall(lines[j], rows[k]).None?
  {
    if ExpandRows(lines, rows).Failure? {
      var k :| 0 <= k < |rows| && BindsLine(rows[k]);
      assert InjectCall(lines[0], rows[k]).None?;
    } else {
      forall k, j | 0 <= k < |rows| && 0 <= j < |lines| ensures InjectCall(lines[j], rows[k]).Some? {
        assert !BindsLine(rows[k]);
      }
    }
  }

  /** When no call raises, line `j` of block `k` of the expansion is what
      substituting row `k` into line `j` returns. */
  lemma ExpandRowsValues(lines: seq<string>, rows: seq<Row>, k: int, j: int)
    requires ExpandRows(lines, rows).Success?
    requires 0 <= k < |rows| && 0 <= j < |lines|
    ensures k * |lines| + j < |ExpandRows(lines, rows).value|
    ensures InjectCall(lines[j], rows[k]) == Some(ExpandRows(lines, rows).value[k * |lines| + j])
  {
    assert !BindsLine(rows[k]);
    ForEachRowAt(lines, rows, k, j);
  }

  /** Closing a frame raises `OverflowError` exactly when its count is outside
      the index range. Otherwise it raises `TypeError` exactly when it has lines
      to substitute and either its enumerated variable is `line` and has values,
      or some fetched row binds `line` and the enumeration, if any, has values. */
  lemma CloseFails(f: Frame)
    ensures Close(f) == Failure(CountOverflow) <==> !FitsIndex(f.count)
    ensures Close(f) == Failure(ArgumentClash) <==>
      && FitsIndex(f.count) && f.count > 0 && f.buffer != []
      && ((f.enumeration.Some? && f.enumeration.value.variable == LineParameter && f.enumeration.value.values != [])
          || (f.rows.Some? && (f.enumeration.None? || f.enumeration.value.values != [])
              && exists k | 0 <= k < |f.rows.value| :: BindsLine(f.rows.value[k])))
  {
    var repeated := Repeat(f.buffer, f.count);
    assert repeated != [] <==> f.count > 0 && f.buffer != [];
    if f.enumeration.Some? {
      var e := f.enumeration.value;
      var rows := EnumerationRows(e);
      assert (exists k | 0 <= k < |rows| :: BindsLine(rows[k])) <==> e.variable == LineParameter && e.values != [] by {
        forall k | 0 <= k < |rows| ensures BindsLine(rows[k]) <==> e.variable == LineParameter {
          BindsLineOne(e.variable, e.values[k]);
        }
        if e.values != [] {
          assert BindsLine(rows[0]) <==> e.variable == LineParameter;
        }
      }
    }
  }

  /** A count frame with a count that is not positive contributes nothing,
      unless the count is below the index range. */
  lemma CloseCountEmpty(buffer: seq<string>, n: int)
    requires n <= 0
    ensures Close(Frame(n, None, buffer, None)) == if FitsIndex(n) then Success([]) else Failure(CountOverflow)
  {
  }

  /** A count frame with a positive count in the index range contributes `n`
      copies of its buffer in order: line `j` of copy `k` is line `j` of the
      buffer. A larger count raises `OverflowError`. */
  lemma CloseCount(buffer: seq<string>, n: int, k: int, j: int)
    requires 0 <= k < n && 0 <= j < |buffer|
    ensures var r := Close(Frame(n, None, buffer, None));
      && (r.Success? <==> n <= 0x7fff_ffff_ffff_ffff)
      && (r.Failure? ==> r.error == CountOverflow)
      && (r.Success? ==>
            && |r.value| == n * |buffer|
            && k * |buffer| + j < |r.value|
            && r.value[k * |buffer| + j] == buffer[j])
  {
    RepeatAt(buffer, n, k, j);
  }

  /** A count frame never substitutes, so closing it fails only for a count
      outside the index range, and otherwise yields the repeated buffer. */
  lemma CloseRepeat(buffer: seq<string>, n: int)
    ensures Close(Frame(n, None, buffer, None)) == if FitsIndex(n) then Success(Repeat(buffer, n)) else Failure(CountOverflow)
  {
  }

  /** Closing an enumerated block fails exactly when its variable is `line`
      and it has both values and lines; otherwise it yields the buffer
      expanded over the values. */
  lemma CloseEnumerated(e: Enumeration, buffer: seq<string>)
    ensures Close(Frame(1, Some(e), buffer, None)) ==
      if e.variable == LineParameter && e.values != [] && buffer != [] then Failure(ArgumentClash)
      else Success(ForEachRow(buffer, EnumerationRows(e)))
  {
    var f := Frame(1, Some(e), buffer, None);
    RepeatOnce(buffer);
    CloseFails(f);
    if Close(f).Success? {
      CloseValue(f);
    }
  }

  /** Closing a loop block is expanding its buffer over its rows. */
  lemma CloseRows(rows: seq<Row>, buffer: seq<string>)
    ensures Close(Frame(1, None, buffer, Some(rows))) == ExpandRows(buffer, rows)
  {
    RepeatOnce(buffer);
  }

  /** Repeating once changes nothing. */
  lemma RepeatOnce(lines: seq<string>)
    ensures Repeat(lines, 1) == lines
  {
    assert Repeat(lines, 0) == [];
    assert lines + [] == lines;
  }

  /** An enumerated frame over a variable other than `line` contributes, for
      each value in listed order, its whole buffer with `{{variable}}` replaced
      by that value. Over `line`, closing it raises `TypeError`. */
  lemma CloseEnumeration(variable: string, values: seq<string>, buffer: seq<string>, k: int, j: int)
    requires 0 <= k < |values| && 0 <= j < |buffer|
    ensures var r := Close(Frame(1, Some(Enumeration(variable, values)), buffer, None));
      && (variable == LineParameter ==> r == Failure(ArgumentClash))
      && (variable != LineParameter ==>
            && r.Success?
            && |r.value| == |values| * |buffer|
            && k * |buffer| + j < |r.value|
            && r.value[k * |buffer| + j] == ReplaceAll(buffer[j], Placeholder(variable), values[k]))
  {
    RepeatOnce(buffer);
    var e := Enumeration(variable, values);
    CloseFails(Frame(1, Some(e), buffer, None));
    ForEachRowAt(buffer, EnumerationRows(e), k, j);
    InjectOne(buffer[j], variable, values[k]);
  }

  /** A loop frame whose rows do not bind `line` contributes, for each fetched
      row in order, its whole buffer with that row's placeholders substituted.
      A row binding `line` makes closing it raise `TypeError`. */
  lemma CloseLoop(rows: seq<Row>, buffer: seq<string>, k: int, j: int)
    requires 0 <= k < |rows| && 0 <= j < |buffer|
    ensures var r := Close(Frame(1, None, buffer, Some(rows)));
      && (r == Failure(ArgumentClash) <==> exists i | 0 <= i < |rows| :: BindsLine(rows[i]))
      && (r.Success? ==>
            && |r.value| == |rows| * |buffer|
            && k * |buffer| + j < |r.value|
            && r.value[k * |buffer| + j] == Inject(buffer[j], rows[k]))
  {
    RepeatOnce(buffer);
    ForEachRowAt(buffer, rows, k, j);
  }

  /** In general a contribution's length is the buffer's length times the
      count (none if not positive), times the number of values, times the number of rows. */
  lemma CloseLength(f: Frame)
    ensures Close(f).Success? ==>
      |Close(f).value| == (if f.count <= 0 then 0 else f.count) * |f.buffer|
        * (if f.enumeration.Some? then |f.enumeration.value.values| else 1)
        * (if f.rows.Some? then |f.rows.value| else 1)
  {
    if Close(f).Success? {
      CloseValue(f);
      ExpandedLength(f);
    }
  }

  lemma ExpandedLength(f: Frame)
    ensures var repeated := Repeat(f.buffer, f.count);
      var enumerated := if f.enumeration.Some? then ForEachRow(repeated, EnumerationRows(f.enumeration.value)) else repeated;
      var expanded := if f.rows.Some? then ForEachRow(enumerated, f.rows.value) else enumerated;
      |expanded| == (if f.count <= 0 then 0 else f.count) * |f.buffer|
        * (if f.enumeration.Some? then |f.enumeration.value.values| else 1)
        * (if f.rows.Some? then |f.rows.value| else 1)
  {
    var c := if f.count <= 0 then 0 else f.count;
    var e := if f.enumeration.Some? then |f.enumeration.value.values| else 1;
    var n := if f.rows.Some? then |f.rows.value| else 1;
    var repeated := Repeat(f.buffer, f.count);
    assert |repeated| == c * |f.buffer|;
    var enumerated := if f.enumeration.Some? then ForEachRow(repeated, EnumerationRows(f.enumeration.value)) else repeated;
    assert |enumerated| == e * (c * |f.buffer|);
    var expanded := if f.rows.Some? then ForEachRow(enumerated, f.rows.value) else enumerated;
    assert |expanded| == n * (e * (c * |f.buffer|));
    Regroup4(c, |f.buffer|, e, n);
  }

  lemma Regroup4(a: int, b: int, c: int, d: int)
    ensures d * (c * (a * b)) == a * b * c * d
  {
  }

  /** A contribution that does not fail is the repeated buffer expanded over
      the values, then over the rows. */
  lemma CloseValue(f: Frame)
    requires Close(f).Success?
    ensures var repeated := Repeat(f.buffer, f.count);
      var enumerated := if f.enumeration.Some? then ForEachRow(repeated, EnumerationRows(f.enumeration.value)) else repeated;
      Close(f).value == if f.rows.Some? then ForEachRow(enumerated, f.rows.value) else enumerated
  {
  }

  /** One more row adds one more substituted block at the end. */
  lemma {:induction false} ForEachRowSnoc(lines: seq<string>, rows: seq<Row>, row: Row)
    ensures ForEachRow(lines, rows + [row]) == ForEachRow(lines, rows) + InjectAll(lines, row)
    decreases |rows|
  {
    if rows == [] {
      assert ([] + [row])[1..] == [];
    } else {
      assert (rows + [row])[0] == rows[0];
      assert (rows + [row])[1..] == rows[1..] + [row];
      ForEachRowSnoc(lines, rows[1..], row);
    }
  }

  /** The source's two nested loops, runtests.py lines 105-107 and 114-115:
      for each row, for each line, call `inject_variable`, stopping at the first
      call that raises. They compute what `ExpandRows` states. */
  method ExpandRowsLoop(lines: seq<string>, rows: seq<Row>) returns (r: Result<seq<string>, CloseFailure>)
    ensures r == ExpandRows(lines, rows)
  {
    var out := [];
    var k := 0;
    while k < |rows|
      invariant 0 <= k <= |rows|
      invariant out == ForEachRow(lines, rows[..k])
      invariant lines != [] ==> forall i :: 0 <= i < k ==> !BindsLine(rows[i])
    {
      var j := 0;
      while j < |lines|
        invariant 0 <= j <= |lines|
        invariant out == ForEachRow(lines, rows[..k]) + InjectAll(lines[..j], rows[k])
        invariant j > 0 ==> !BindsLine(rows[k])
      {
        if BindsLine(rows[k]) {
          return Failure(ArgumentClash);
        }
        var injected := InjectVariable(lines[j], rows[k]);
        assert lines[..j + 1] == lines[..j] + [lines[j]];
        assert InjectAll(lines[..j + 1], rows[k]) == InjectAll(lines[..j], rows[k]) + [injected];
        out := out + [injected];
        j := j + 1;
      }
      assert lines[..j] == lines;
      assert rows[..k + 1] == rows[..k] + [rows[k]];
      ForEachRowSnoc(lines, rows[..k], rows[k]);
      k := k + 1;
    }
    assert rows[..k] == rows;
    r := Success(out);
  }

  /** The source's end-block branch, runtests.py lines 95-117: the buffer
      repeated by the count, then the loop over the enumerated values, then the
      loop over the fetched rows. It computes what `Close` states. */
  method CloseFrame(f: Frame) returns (toAdd: Result<seq<string>, CloseFailure>)
    ensures toAdd == Close(f)
  {
    if !FitsIndex(f.count) {
      return Failure(CountOverflow);
    }
    var repeated := Repeat(f.buffer, f.count);
    var enumerated := repeated;
    if f.enumeration.Some? {
      var e := f.enumeration.value;
      var converted := ExpandRowsLoop(repeated, EnumerationRows(e));
      if converted.Failure? {
        return converted;
      }
      enumerated := converted.value;
    }
    if f.rows.Some? {
      toAdd := ExpandRowsLoop(enumerated, f.rows.value);
    } else {
      toAdd := Success(enumerated);
    }
  }
}
