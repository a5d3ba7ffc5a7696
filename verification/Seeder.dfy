/**
 * Chunked insertion of test data with numbered SQL parameters
 * (src/Dev-Sandbox-Env/data-seeder.ts).
 */
module Seeder {

  import opened Options

  /** A row object; a column it lacks reads as undefined. */
  type Row = map<string, string>
  type Cell = Option<string>

  function CellOf(row: Row, column: string): Cell
  {
    if column in row then Some(row[column]) else None
  }

  // --------------------------------------------------------------- chunking

  function Flatten<T>(chunks: seq<seq<T>>): seq<T>
  {
    if chunks == [] then [] else Flatten(chunks[..|chunks| - 1]) + chunks[|chunks| - 1]
  }

  lemma FlattenSnoc<T>(chunks: seq<seq<T>>, c: seq<T>)
    ensures Flatten(chunks + [c]) == Flatten(chunks) + c
  {
    assert (chunks + [c])[..|chunks|] == chunks;
  }

  /** The chunks concatenate back to the list; all are full except perhaps the last, and none is empty. */
  method Chunk<T>(xs: seq<T>, size: nat) returns (chunks: seq<seq<T>>)
    requires size > 0
    ensures Flatten(chunks) == xs
    ensures forall i :: 0 <= i < |chunks| ==> 0 < |chunks[i]| <= size
    ensures forall i :: 0 <= i < |chunks| - 1 ==> |chunks[i]| == size
  {
    chunks := [];
    var i := 0;
    while i < |xs|
      invariant 0 <= i
      invariant Flatten(chunks) == if i <= |xs| then xs[..i] else xs
      invariant forall k :: 0 <= k < |chunks| ==> 0 < |chunks[k]| <= size
      invariant forall k :: 0 <= k < |chunks| - 1 ==> |chunks[k]| == size
      invariant i <= |xs| ==> forall k :: 0 <= k < |chunks| ==> |chunks[k]| == size
    {
      var end := if i + size <= |xs| then i + size else |xs|;
      FlattenSnoc(chunks, xs[i..end]);
      assert xs[..i] + xs[i..end] == xs[..end];
      chunks := chunks + [xs[i..end]];
      i := i + size;
    }
  }

  // ------------------------------------------------------------ the statement

  /** An INSERT: for each row the numbers of its placeholders, and the parameter list. */
  datatype Statement = Statement(placeholders: seq<seq<nat>>, params: seq<Cell>)

  /** The cells of one row: the sandbox prefix, then the columns in order. */
  function Cells(row: Row, columns: seq<string>, prefix: string): (cells: seq<Cell>)
    ensures |cells| == |columns| + 1
    ensures cells[0] == Some(prefix)
    ensures forall c :: 0 <= c < |columns| ==> cells[c + 1] == CellOf(row, columns[c])
  {
    [Some(prefix)] + seq(|columns|, c requires 0 <= c < |columns| => CellOf(row, columns[c]))
  }

  /** The numbers `from`, `from + 1`, ... */
  function Numbers(from: nat, n: nat): (r: seq<nat>)
    ensures |r| == n && forall i :: 0 <= i < n ==> r[i] == from + i
  {
    seq(n, i requires 0 <= i < n => from + i)
  }

  /** What the database reads for a row: placeholder k stands for parameter k, counted from 1. */
  function Bound(numbers: seq<nat>, params: seq<Cell>): (cells: seq<Cell>)
    ensures |cells| == |numbers|
  {
    seq(|numbers|, i requires 0 <= i < |numbers| =>
      if 1 <= numbers[i] <= |params| then params[numbers[i] - 1] else None)
  }

  /** Every row reads back its own cells. */
  ghost predicate Reads(st: Statement, rows: seq<Row>, columns: seq<string>, prefix: string)
  {
    && |st.placeholders| == |rows|
    && forall r :: 0 <= r < |rows| ==> Bound(st.placeholders[r], st.params) == Cells(rows[r], columns, prefix)
  }

  lemma BoundGrows(numbers: seq<nat>, params: seq<Cell>, more: seq<Cell>)
    requires forall i :: 0 <= i < |numbers| ==> 1 <= numbers[i] <= |params|
    ensures Bound(numbers, params + more) == Bound(numbers, params)
  {
  }

  lemma BoundLatest(params: seq<Cell>, cells: seq<Cell>)
    ensures Bound(Numbers(|params| + 1, |cells|), params + cells) == cells
  {
  }

  ghost predicate InRange(placeholders: seq<seq<nat>>, n: nat)
  {
    forall r, c :: 0 <= r < |placeholders| && 0 <= c < |placeholders[r]| ==> 1 <= placeholders[r][c] <= n
  }

  /** One row more: its numbers continue the count and its cells extend the parameters. */
  lemma ReadsOneMore(st: Statement, rows: seq<Row>, columns: seq<string>, prefix: string, row: Row)
    requires Reads(st, rows, columns, prefix) && InRange(st.placeholders, |st.params|)
    ensures var cells := Cells(row, columns, prefix);
            var next := Statement(st.placeholders + [Numbers(|st.params| + 1, |cells|)], st.params + cells);
            Reads(next, rows + [row], columns, prefix) && InRange(next.placeholders, |next.params|)
  {
    var cells := Cells(row, columns, prefix);
    BoundLatest(st.params, cells);
    var next := Statement(st.placeholders + [Numbers(|st.params| + 1, |cells|)], st.params + cells);
    forall r | 0 <= r < |rows| + 1
      ensures Bound(next.placeholders[r], next.params) == Cells((rows + [row])[r], columns, prefix)
    {
      if r < |rows| {
        BoundGrows(st.placeholders[r], st.params, cells);
      }
    }
  }

  lemma NumbersConcat(from: nat, n: nat, m: nat)
    ensures Numbers(from, n) + Numbers(from + n, m) == Numbers(from, n + m)
  {
  }

  /** `rowParams.map(() => `$${paramIdx++}`)`. */
  method NumberRow(paramIdx: nat, n: nat) returns (numbers: seq<nat>, next: nat)
    ensures numbers == Numbers(paramIdx, n) && next == paramIdx + n
  {
    numbers, next := [], paramIdx;
    for c := 0 to n
      invariant numbers == Numbers(paramIdx, c) && next == paramIdx + c
    {
      numbers := numbers + [next];
      next := next + 1;
    }
  }

  /**
   * `buildInsertSql`: placeholders are numbered 1, 2, 3, ... through the whole
   * statement, and each one refers to the cell of its row and column.
   */
  method BuildInsert(columns: seq<string>, rows: seq<Row>, prefix: string) returns (st: Statement)
    ensures Reads(st, rows, columns, prefix)
    ensures Flatten(st.placeholders) == Numbers(1, |st.params|)
  {
    st := Statement([], []);
    var paramIdx := 1;
    for i := 0 to |rows|
      invariant paramIdx == |st.params| + 1
      invariant Reads(st, rows[..i], columns, prefix) && InRange(st.placeholders, |st.params|)
      invariant Flatten(st.placeholders) == Numbers(1, |st.params|)
    {
      var rowParams := Cells(rows[i], columns, prefix);
      var numbers, next := NumberRow(paramIdx, |rowParams|);
      AddRow(st, rows[..i], columns, prefix, rows[i]);
      assert rows[..i + 1] == rows[..i] + [rows[i]];
      st := Statement(st.placeholders + [numbers], st.params + rowParams);
      paramIdx := next;
    }
    assert rows[..|rows|] == rows;
  }

  lemma AddRow(st: Statement, rows: seq<Row>, columns: seq<string>, prefix: string, row: Row)
    requires Reads(st, rows, columns, prefix) && InRange(st.placeholders, |st.params|)
    requires Flatten(st.placeholders) == Numbers(1, |st.params|)
    ensures var cells := Cells(row, columns, prefix);
            var next := Statement(st.placeholders + [Numbers(|st.params| + 1, |cells|)], st.params + cells);
            && Reads(next, rows + [row], columns, prefix) && InRange(next.placeholders, |next.params|)
            && Flatten(next.placeholders) == Numbers(1, |next.params|)
  {
    var n := |Cells(row, columns, prefix)|;
    ReadsOneMore(st, rows, columns, prefix, row);
    FlattenSnoc(st.placeholders, Numbers(|st.params| + 1, n));
    NumbersConcat(1, |st.params|, n);
  }

  // --------------------------------------------------------- batch insertion

  datatype SeederResult = SeederResult(inserted: nat, skipped: nat, errors: nat)

  /** The chunks whose transaction went through. */
  function Committed<T>(chunks: seq<seq<T>>, ok: nat -> bool): seq<seq<T>>
  {
    if chunks == [] then []
    else
      var n := |chunks| - 1;
      Committed(chunks[..n], ok) + if ok(n) then [chunks[n]] else []
  }

  function Failures<T>(chunks: seq<seq<T>>, ok: nat -> bool): nat
  {
    if chunks == [] then 0 else Failures(chunks[..|chunks| - 1], ok) + if ok(|chunks| - 1) then 0 else 1
  }

  /** The committed statements insert the rows of the committed chunks. */
  ghost predicate Inserts(statements: seq<Statement>, chunks: seq<seq<Row>>, columns: seq<string>, prefix: string)
  {
    |statements| == |chunks| && forall i :: 0 <= i < |chunks| ==> Reads(statements[i], chunks[i], columns, prefix)
  }

  lemma CommitSnoc<T>(chunks: seq<seq<T>>, c: seq<T>, ok: nat -> bool)
    ensures Committed(chunks + [c], ok) == Committed(chunks, ok) + if ok(|chunks|) then [c] else []
    ensures Failures(chunks + [c], ok) == Failures(chunks, ok) + if ok(|chunks|) then 0 else 1
  {
    assert (chunks + [c])[..|chunks|] == chunks;
  }

  /** The counters and statements after some chunks. */
  ghost predicate Progress(result: SeederResult, statements: seq<Statement>, done: seq<seq<Row>>, ok: nat -> bool,
                           columns: seq<string>, prefix: string)
  {
    && result.inserted + result.skipped == |Flatten(done)|
    && result.inserted == |Flatten(Committed(done, ok))| && result.errors == Failures(done, ok)
    && Inserts(statements, Committed(done, ok), columns, prefix)
  }

  /** A chunk is either committed or a failure. */
  lemma {:induction false} CommittedOrFailed<T>(chunks: seq<seq<T>>, ok: nat -> bool)
    ensures |Committed(chunks, ok)| + Failures(chunks, ok) == |chunks|
  {
    if chunks != [] {
      CommittedOrFailed(chunks[..|chunks| - 1], ok);
    }
  }

  lemma ProgressCommitted(result: SeederResult, statements: seq<Statement>, done: seq<seq<Row>>, ok: nat -> bool,
                          columns: seq<string>, prefix: string, c: seq<Row>, st: Statement)
    requires Progress(result, statements, done, ok, columns, prefix) && ok(|done|) && Reads(st, c, columns, prefix)
    ensures Progress(result.(inserted := result.inserted + |c|), statements + [st], done + [c], ok, columns, prefix)
  {
    CommitSnoc(done, c, ok);
    FlattenSnoc(done, c);
    FlattenSnoc(Committed(done, ok), c);
  }

  lemma ProgressFailed(result: SeederResult, statements: seq<Statement>, done: seq<seq<Row>>, ok: nat -> bool,
                       columns: seq<string>, prefix: string, c: seq<Row>)
    requires Progress(result, statements, done, ok, columns, prefix) && !ok(|done|)
    ensures Progress(result.(skipped := result.skipped + |c|, errors := result.errors + 1), statements, done + [c], ok,
                     columns, prefix)
  {
    CommitSnoc(done, c, ok);
    FlattenSnoc(done, c);
    assert Committed(done + [c], ok) == Committed(done, ok);
  }

  /** When every transaction goes through, the committed chunks are all of them. */
  lemma {:induction false} AllCommitted<T>(chunks: seq<seq<T>>, ok: nat -> bool)
    requires forall n :: ok(n)
    ensures Committed(chunks, ok) == chunks && Failures(chunks, ok) == 0
  {
    if chunks != [] {
      var front, last := chunks[..|chunks| - 1], chunks[|chunks| - 1];
      assert chunks == front + [last];
      AllCommitted(front, ok);
      CommitSnoc(front, last, ok);
    }
  }

  /**
   * `batchInsert`: one transaction per chunk; a failing chunk is counted as
   * skipped and the rest goes on. No row is lost from the counts.
   */
  method BatchInsert(columns: seq<string>, rows: seq<Row>, prefix: string, dryRun: bool, batchSize: nat,
                     ok: nat -> bool)
    returns (result: SeederResult, statements: seq<Statement>, ghost chunks: seq<seq<Row>>)
    requires batchSize > 0
    ensures result.inserted + result.skipped == |rows|
    ensures Flatten(chunks) == if dryRun then [] else rows
    ensures Inserts(statements, Committed(chunks, ok), columns, prefix)
    ensures result.inserted == |Flatten(Committed(chunks, ok))| && result.errors == Failures(chunks, ok)
    ensures |statements| + result.errors == |chunks|
    ensures dryRun ==> statements == [] && result.skipped == |rows|
  {
    result, statements, chunks := SeederResult(0, 0, 0), [], [];
    if |rows| == 0 {
      return;
    }
    if dryRun {
      result := result.(skipped := |rows|);
      return;
    }
    var parts := Chunk(rows, batchSize);
    for i := 0 to |parts|
      invariant Progress(result, statements, parts[..i], ok, columns, prefix)
    {
      assert parts[..i + 1] == parts[..i] + [parts[i]];
      var st := BuildInsert(columns, parts[i], prefix);
      if ok(i) {
        ProgressCommitted(result, statements, parts[..i], ok, columns, prefix, parts[i], st);
        statements := statements + [st];
        result := result.(inserted := result.inserted + |parts[i]|);
      } else {
        ProgressFailed(result, statements, parts[..i], ok, columns, prefix, parts[i]);
        result := result.(skipped := result.skipped + |parts[i]|, errors := result.errors + 1);
      }
    }
    assert parts[..|parts|] == parts;
    CommittedOrFailed(parts, ok);
    chunks := parts;
  }
}
