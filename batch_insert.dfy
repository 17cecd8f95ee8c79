/**
 * The batching of insertDB (Excel2MySQL.java) as values: how a correct
 * line is bound to the parameters of the prepared INSERT statement, how the
 * correct lines are cut into batches of BULK_SIZE, and what a run of
 * batches reports. The database is an executor function from a batch
 * number and the batch's parameter rows to the update counts or a failure.
 */
module BatchInsert {
  import opened Wrappers
  import opened JavaText
  import opened ColumnType
  import opened ColumnMapping
  import opened RowCheck

  /** setLong, setDouble or setString. */
  datatype Param = LongParam(n: int) | DoubleParam(text: string) | StringParam(s: string)

  /**
   * The parameter for one mapping: the cell at the mapping's column, parsed
   * by Long.parseLong (INTEGER) or Double.parseDouble (NUMBER). None stands
   * for the runtime exception of a missing cell or an unparsable text.
   */
  function BindCell(m: ColumnSpec, line: seq<string>, isDecimal: string -> bool): Option<Param> {
    if !(0 <= m.col < |line|) then None
    else
      var v := line[m.col];
      match m.ty
      case Integer => (match ParseLong(v) case Some(n) => Some(LongParam(n)) case None => None)
      case Number => if isDecimal(v) then Some(DoubleParam(v)) else None
      case _ => Some(StringParam(v))
  }

  /** One parameter per mapping, in mapping order, or None when any of them throws. */
  function BindRow(specs: seq<ColumnSpec>, line: seq<string>, isDecimal: string -> bool): (r: Option<seq<Param>>)
    ensures r.Some? ==> |r.value| == |specs|
    decreases |specs|
  {
    if specs == [] then Some([])
    else
      match BindRow(specs[..|specs| - 1], line, isDecimal)
      case None => None
      case Some(ps) =>
        match BindCell(specs[|specs| - 1], line, isDecimal)
        case None => None
        case Some(p) => Some(ps + [p])
  }

  /** The parameter rows of a batch, or None when binding some line throws. */
  function BindRows(specs: seq<ColumnSpec>, lines: seq<seq<string>>, isDecimal: string -> bool): (r: Option<seq<seq<Param>>>)
    ensures r.Some? ==> |r.value| == |lines|
    decreases |lines|
  {
    if lines == [] then Some([])
    else
      match BindRows(specs, lines[..|lines| - 1], isDecimal)
      case None => None
      case Some(ps) =>
        match BindRow(specs, lines[|lines| - 1], isDecimal)
        case None => None
        case Some(p) => Some(ps + [p])
  }

  /** A line binds exactly when each mapping's cell does, and then holds each mapping's parameter in order. */
  lemma {:induction false} BindRowSpec(specs: seq<ColumnSpec>, line: seq<string>, isDecimal: string -> bool)
    ensures BindRow(specs, line, isDecimal).Some? <==> forall i :: 0 <= i < |specs| ==> BindCell(specs[i], line, isDecimal).Some?
    ensures BindRow(specs, line, isDecimal).Some? ==>
              forall i :: 0 <= i < |specs| ==> Some(BindRow(specs, line, isDecimal).value[i]) == BindCell(specs[i], line, isDecimal)
    decreases |specs|
  {
    if specs != [] {
      var n := |specs| - 1;
      BindRowSpec(specs[..n], line, isDecimal);
      assert forall i :: 0 <= i < n ==> specs[..n][i] == specs[i];
    }
  }

  /** A cell that cannot be bound makes its whole line fail to bind. */
  lemma BindRowFails(specs: seq<ColumnSpec>, line: seq<string>, isDecimal: string -> bool, i: nat)
    requires i < |specs| && BindCell(specs[i], line, isDecimal).None?
    ensures BindRow(specs, line, isDecimal).None?
  {
    BindRowSpec(specs, line, isDecimal);
  }

  /** A batch binds exactly when each of its lines does, and then holds each line's parameters in order. */
  lemma {:induction false} BindRowsSpec(specs: seq<ColumnSpec>, lines: seq<seq<string>>, isDecimal: string -> bool)
    ensures BindRows(specs, lines, isDecimal).Some? <==> forall i :: 0 <= i < |lines| ==> BindRow(specs, lines[i], isDecimal).Some?
    ensures BindRows(specs, lines, isDecimal).Some? ==>
              forall i :: 0 <= i < |lines| ==> Some(BindRows(specs, lines, isDecimal).value[i]) == BindRow(specs, lines[i], isDecimal)
    decreases |lines|
  {
    if lines != [] {
      var n := |lines| - 1;
      BindRowsSpec(specs, lines[..n], isDecimal);
      assert forall i :: 0 <= i < n ==> lines[..n][i] == lines[i];
    }
  }

  lemma BindRowStep(specs: seq<ColumnSpec>, line: seq<string>, isDecimal: string -> bool, i: nat, ps: seq<Param>)
    requires i < |specs| && BindRow(specs[..i], line, isDecimal) == Some(ps)
    ensures BindRow(specs[..i + 1], line, isDecimal) ==
              if BindCell(specs[i], line, isDecimal).Some? then Some(ps + [BindCell(specs[i], line, isDecimal).value]) else None
  {
    assert specs[..i + 1][..i] == specs[..i];
  }

  lemma BindRowsStep(specs: seq<ColumnSpec>, lines: seq<seq<string>>, isDecimal: string -> bool, i: nat, j: nat, ps: seq<seq<Param>>)
    requires i <= j < |lines| && BindRows(specs, lines[i..j], isDecimal) == Some(ps)
    ensures BindRows(specs, lines[i..j + 1], isDecimal) ==
              if BindRow(specs, lines[j], isDecimal).Some? then Some(ps + [BindRow(specs, lines[j], isDecimal).value]) else None
  {
    assert lines[i..j + 1][..j - i] == lines[i..j];
  }

  /** A line that cannot be bound makes every run of lines around it fail to bind. */
  lemma BindRowsFails(specs: seq<ColumnSpec>, lines: seq<seq<string>>, isDecimal: string -> bool, i: nat, j: nat, k: nat)
    requires i <= j < k <= |lines| && BindRow(specs, lines[j], isDecimal).None?
    ensures BindRows(specs, lines[i..k], isDecimal).None?
  {
    BindRowsSpec(specs, lines[i..k], isDecimal);
    assert lines[i..k][j - i] == lines[j];
  }

  datatype BatchResult = Executed(counts: seq<int>) | SqlFailure

  /**
   * How insertDB ends: every batch done; an SQLException (execute or
   * commit) that ended the loop; a runtime exception that ends the run; or
   * a loop that never ends (BULK_SIZE of zero or less with rows to insert).
   */
  datatype Outcome = Finished | SqlFailed | Threw | Spins

  /** The per-batch totals printed for every executed batch, and the outcome. */
  datatype InsertReport = InsertReport(totals: seq<int>, outcome: Outcome)

  /** Consecutive chunks of size rows, the last one possibly shorter. */
  function Chunks<T>(rows: seq<T>, size: nat): seq<seq<T>>
    requires size > 0
    decreases |rows|
  {
    if rows == [] then []
    else
      var n := if size < |rows| then size else |rows|;
      [rows[..n]] + Chunks(rows[n..], size)
  }

  lemma ChunksHead<T>(rows: seq<T>, size: nat, n: nat)
    requires size > 0 && rows != [] && n == if size < |rows| then size else |rows|
    ensures Chunks(rows, size) == [rows[..n]] + Chunks(rows[n..], size)
  {
  }

  function Flatten<T>(xs: seq<seq<T>>): seq<T> {
    if xs == [] then [] else xs[0] + Flatten(xs[1..])
  }

  /** The sum of the positive update counts, without wrap-around. */
  function PositiveSum(counts: seq<int>): nat
    decreases |counts|
  {
    if counts == [] then 0
    else PositiveSum(counts[..|counts| - 1]) + (if counts[|counts| - 1] > 0 then counts[|counts| - 1] else 0)
  }

  lemma PositiveSumStep(counts: seq<int>, i: nat)
    requires i < |counts|
    ensures PositiveSum(counts[..i + 1]) == PositiveSum(counts[..i]) + if counts[i] > 0 then counts[i] else 0
  {
    assert counts[..i + 1][..i] == counts[..i];
  }

  /** The printed total of a batch: the positive counts summed in int arithmetic. */
  function BatchTotal(counts: seq<int>): (t: int)
    ensures IntMin <= t <= IntMax
    ensures PositiveSum(counts) <= IntMax ==> t == PositiveSum(counts)
  {
    Wrap32(PositiveSum(counts))
  }

  /** Run the remaining chunks from batch number k on, with the totals so far. */
  function RunChunks(specs: seq<ColumnSpec>, chunks: seq<seq<seq<string>>>, k: nat,
                     exec: (nat, seq<seq<Param>>) -> BatchResult, isDecimal: string -> bool,
                     totals: seq<int>): (r: InsertReport)
    ensures r.outcome != Spins
    decreases |chunks|
  {
    if chunks == [] then InsertReport(totals, Finished)
    else
      match BindRows(specs, chunks[0], isDecimal)
      case None => InsertReport(totals, Threw)
      case Some(params) =>
        match exec(k, params)
        case SqlFailure => InsertReport(totals, SqlFailed)
        case Executed(counts) => RunChunks(specs, chunks[1..], k + 1, exec, isDecimal, totals + [BatchTotal(counts)])
  }

  /** The first batch of a run: its lines are the next size rows, at most BULK_SIZE of them. */
  lemma RunChunksHead(specs: seq<ColumnSpec>, rest: seq<seq<string>>, bulk: nat, size: nat, k: nat,
                      exec: (nat, seq<seq<Param>>) -> BatchResult, isDecimal: string -> bool, totals: seq<int>)
    requires bulk > 0 && rest != [] && size == if bulk < |rest| then bulk else |rest|
    ensures var bound := BindRows(specs, rest[..size], isDecimal);
            RunChunks(specs, Chunks(rest, bulk), k, exec, isDecimal, totals) ==
              if bound.None? then InsertReport(totals, Threw)
              else if exec(k, bound.value).SqlFailure? then InsertReport(totals, SqlFailed)
              else RunChunks(specs, Chunks(rest[size..], bulk), k + 1, exec, isDecimal,
                             totals + [BatchTotal(exec(k, bound.value).counts)])
  {
    ChunksHead(rest, bulk, size);
    assert Chunks(rest, bulk)[1..] == Chunks(rest[size..], bulk);
  }

  /**
   * insertDB: building the statement throws when there is no mapping; no
   * rows means no batch; a non-positive BULK_SIZE never advances.
   */
  function RunInsert(specs: seq<ColumnSpec>, rows: seq<seq<string>>, bulk: int,
                     exec: (nat, seq<seq<Param>>) -> BatchResult, isDecimal: string -> bool): (r: InsertReport)
    ensures specs == [] ==> r == InsertReport([], Threw)
    ensures specs != [] && rows == [] ==> r == InsertReport([], Finished)
    ensures r.outcome == Spins <==> specs != [] && rows != [] && bulk <= 0
  {
    if specs == [] then InsertReport([], Threw)
    else if rows == [] then InsertReport([], Finished)
    else if bulk <= 0 then InsertReport([], Spins)
    else RunChunks(specs, Chunks(rows, bulk), 0, exec, isDecimal, [])
  }

  // ---------------------------------------------------------------------------
  // Chunks

  /** The chunks hold every row once, in order. */
  lemma {:induction false} ChunksFlatten<T>(rows: seq<T>, size: nat)
    requires size > 0
    ensures Flatten(Chunks(rows, size)) == rows
    decreases |rows|
  {
    if rows != [] {
      var n := if size < |rows| then size else |rows|;
      ChunksFlatten(rows[n..], size);
      assert Chunks(rows, size)[1..] == Chunks(rows[n..], size);
      assert rows[..n] + rows[n..] == rows;
    }
  }

  /** Every chunk is non-empty and at most size long, and all but the last are exactly size long. */
  lemma {:induction false} ChunksSizes<T>(rows: seq<T>, size: nat)
    requires size > 0
    ensures forall i :: 0 <= i < |Chunks(rows, size)| ==> 1 <= |Chunks(rows, size)[i]| <= size
    ensures forall i :: 0 <= i < |Chunks(rows, size)| - 1 ==> |Chunks(rows, size)[i]| == size
    decreases |rows|
  {
    if rows != [] {
      var n := if size < |rows| then size else |rows|;
      ChunksSizes(rows[n..], size);
      var c := Chunks(rows, size);
      forall i | 1 <= i < |c| ensures c[i] == Chunks(rows[n..], size)[i - 1] {
      }
      if n < size {
        assert rows[n..] == [];
      }
    }
  }

  /** There are just enough chunks: |rows| / size rounded up. */
  lemma {:induction false} ChunksCount<T>(rows: seq<T>, size: nat)
    requires size > 0
    ensures |Chunks(rows, size)| * size >= |rows| > (|Chunks(rows, size)| - 1) * size
    decreases |rows|
  {
    if rows != [] {
      var n := if size < |rows| then size else |rows|;
      var m := |Chunks(rows[n..], size)|;
      ChunksCount(rows[n..], size);
      assert |Chunks(rows, size)| == m + 1;
      if n < size {
        assert rows[n..] == [];
        assert m == 0;
      } else {
        assert (m + 1) * size == m * size + size;
        assert m * size == (m - 1) * size + size;
      }
    }
  }

  // ---------------------------------------------------------------------------
  // Runs

  /** Batch b (numbered k + b) was bound and executed, and total is its printed total. */
  predicate BatchDone(specs: seq<ColumnSpec>, chunks: seq<seq<seq<string>>>, k: nat,
                      exec: (nat, seq<seq<Param>>) -> BatchResult, isDecimal: string -> bool,
                      b: nat, total: int)
    requires b < |chunks|
  {
    BindRows(specs, chunks[b], isDecimal).Some? &&
    exec(k + b, BindRows(specs, chunks[b], isDecimal).value).Executed? &&
    total == BatchTotal(exec(k + b, BindRows(specs, chunks[b], isDecimal).value).counts)
  }

  /** The first |totals| batches were executed, in order, with these totals. */
  predicate BatchesDone(specs: seq<ColumnSpec>, chunks: seq<seq<seq<string>>>, k: nat,
                        exec: (nat, seq<seq<Param>>) -> BatchResult, isDecimal: string -> bool,
                        totals: seq<int>)
  {
    |totals| <= |chunks| &&
    forall b :: 0 <= b < |totals| ==> BatchDone(specs, chunks, k, exec, isDecimal, b, totals[b])
  }

  /** The totals printed before a run are kept in front of the ones it prints. */
  lemma {:induction false} RunChunksKeepsTotals(specs: seq<ColumnSpec>, chunks: seq<seq<seq<string>>>, k: nat,
                                                exec: (nat, seq<seq<Param>>) -> BatchResult,
                                                isDecimal: string -> bool, totals: seq<int>)
    ensures var r := RunChunks(specs, chunks, k, exec, isDecimal, []);
            RunChunks(specs, chunks, k, exec, isDecimal, totals) == InsertReport(totals + r.totals, r.outcome)
    decreases |chunks|
  {
    if chunks != [] {
      var bound := BindRows(specs, chunks[0], isDecimal);
      if bound.Some? && exec(k, bound.value).Executed? {
        var x := BatchTotal(exec(k, bound.value).counts);
        assert RunChunks(specs, chunks, k, exec, isDecimal, totals) == RunChunks(specs, chunks[1..], k + 1, exec, isDecimal, totals + [x]);
        assert RunChunks(specs, chunks, k, exec, isDecimal, []) == RunChunks(specs, chunks[1..], k + 1, exec, isDecimal, [x]) by {
          assert [] + [x] == [x];
        }
        RunChunksKeepsTotals(specs, chunks[1..], k + 1, exec, isDecimal, totals + [x]);
        RunChunksKeepsTotals(specs, chunks[1..], k + 1, exec, isDecimal, [x]);
        var r1 := RunChunks(specs, chunks[1..], k + 1, exec, isDecimal, []);
        assert (totals + [x]) + r1.totals == totals + ([x] + r1.totals);
      }
    }
  }

  lemma BatchDoneShift(specs: seq<ColumnSpec>, chunks: seq<seq<seq<string>>>, k: nat,
                        exec: (nat, seq<seq<Param>>) -> BatchResult, isDecimal: string -> bool, b: nat, total: int)
    requires 0 < b < |chunks| && BatchDone(specs, chunks[1..], k + 1, exec, isDecimal, b - 1, total)
    ensures BatchDone(specs, chunks, k, exec, isDecimal, b, total)
  {
    assert chunks[1..][b - 1] == chunks[b];
  }

  /** Every batch a run reports a total for was bound and executed, in order. */
  lemma {:induction false} RunChunksDone(specs: seq<ColumnSpec>, chunks: seq<seq<seq<string>>>, k: nat,
                                         exec: (nat, seq<seq<Param>>) -> BatchResult, isDecimal: string -> bool)
    ensures BatchesDone(specs, chunks, k, exec, isDecimal, RunChunks(specs, chunks, k, exec, isDecimal, []).totals)
    decreases |chunks|
  {
    if chunks != [] {
      var bound := BindRows(specs, chunks[0], isDecimal);
      if bound.Some? && exec(k, bound.value).Executed? {
        var x := BatchTotal(exec(k, bound.value).counts);
        var tail := chunks[1..];
        RunChunksDone(specs, tail, k + 1, exec, isDecimal);
        RunChunksKeepsTotals(specs, tail, k + 1, exec, isDecimal, [x]);
        var r1 := RunChunks(specs, tail, k + 1, exec, isDecimal, []);
        var ts := RunChunks(specs, chunks, k, exec, isDecimal, []).totals;
        assert ts == [x] + r1.totals by {
          assert [] + [x] == [x];
        }
        assert BatchDone(specs, chunks, k, exec, isDecimal, 0, x);
        forall b | 0 < b < |ts|
          ensures BatchDone(specs, chunks, k, exec, isDecimal, b, ts[b])
        {
          BatchDoneShift(specs, chunks, k, exec, isDecimal, b, r1.totals[b - 1]);
        }
      }
    }
  }

  /**
   * A run stops at the first batch that cannot be bound (Threw) or whose
   * execution fails (SqlFailed); Finished means every batch was executed.
   */
  lemma {:induction false} RunChunksStops(specs: seq<ColumnSpec>, chunks: seq<seq<seq<string>>>, k: nat,
                                          exec: (nat, seq<seq<Param>>) -> BatchResult, isDecimal: string -> bool)
    ensures var r := RunChunks(specs, chunks, k, exec, isDecimal, []);
            var done := |r.totals|;
            done <= |chunks| && r.outcome != Spins &&
            (r.outcome == Finished <==> done == |chunks|) &&
            (r.outcome == Threw ==> done < |chunks| && BindRows(specs, chunks[done], isDecimal).None?) &&
            (r.outcome == SqlFailed ==> done < |chunks| && BindRows(specs, chunks[done], isDecimal).Some? &&
                                        exec(k + done, BindRows(specs, chunks[done], isDecimal).value) == SqlFailure)
    decreases |chunks|
  {
    if chunks != [] {
      var bound := BindRows(specs, chunks[0], isDecimal);
      if bound.Some? && exec(k, bound.value).Executed? {
        var x := BatchTotal(exec(k, bound.value).counts);
        var tail := chunks[1..];
        RunChunksStops(specs, tail, k + 1, exec, isDecimal);
        RunChunksKeepsTotals(specs, tail, k + 1, exec, isDecimal, [x]);
        var r1 := RunChunks(specs, tail, k + 1, exec, isDecimal, []);
        var r := RunChunks(specs, chunks, k, exec, isDecimal, []);
        assert r == InsertReport([x] + r1.totals, r1.outcome) by {
          assert [] + [x] == [x];
        }
        if r.outcome == Threw || r.outcome == SqlFailed {
          assert tail[|r1.totals|] == chunks[|r.totals|];
        }
      }
    }
  }

  /**
   * insertDB with a mapping, rows and BULK_SIZE n > 0 runs the chunks of n
   * rows as batches 0, 1, ... and stops at the first that throws or fails.
   */
  lemma RunInsertBatches(specs: seq<ColumnSpec>, rows: seq<seq<string>>, bulk: int,
                         exec: (nat, seq<seq<Param>>) -> BatchResult, isDecimal: string -> bool)
    requires specs != [] && rows != [] && bulk > 0
    ensures var r := RunInsert(specs, rows, bulk, exec, isDecimal);
            var chunks := Chunks(rows, bulk);
            BatchesDone(specs, chunks, 0, exec, isDecimal, r.totals) &&
            (r.outcome == Finished <==> |r.totals| == |chunks|) &&
            r.outcome != Spins
  {
    RunChunksDone(specs, Chunks(rows, bulk), 0, exec, isDecimal);
    RunChunksStops(specs, Chunks(rows, bulk), 0, exec, isDecimal);
  }

  /** With no mapping the statement cannot be built: the run throws before any batch. */
  lemma NoMappingCrashes(rows: seq<seq<string>>, bulk: int,
                         exec: (nat, seq<seq<Param>>) -> BatchResult, isDecimal: string -> bool)
    ensures RunInsert([], rows, bulk, exec, isDecimal) == InsertReport([], Threw)
  {
  }

  // ---------------------------------------------------------------------------
  // Binding rows that passed the check

  /** Double.parseDouble reads every decimal integer. */
  ghost predicate DecimalCoversIntegers(isDecimal: string -> bool) {
    forall v :: ParseDecimal(v).Some? ==> isDecimal(v)
  }

  predicate DistinctColumns(specs: seq<ColumnSpec>) {
    forall i, j :: 0 <= i < j < |specs| ==> specs[i].col != specs[j].col
  }

  /** With distinct columns, the mapping of a spec's column is that spec. */
  lemma MappingAtDistinct(specs: seq<ColumnSpec>, i: nat)
    requires DistinctColumns(specs) && i < |specs|
    ensures MappingAt(specs, specs[i].col) == Some(specs[i])
  {
    var r := MappingAt(specs, specs[i].col);
    var j :| 0 <= j < |specs| && specs[j] == r.value && forall k :: 0 <= k < j ==> specs[k].col != specs[i].col;
    assert j <= i;
    assert j == i || specs[j].col != specs[i].col;
  }

  lemma BindAcceptedCell(m: ColumnSpec, line: seq<string>, isDecimal: string -> bool)
    requires DecimalCoversIntegers(isDecimal)
    requires 0 <= m.col < |line| && CheckCell(m.ty, m.len, line[m.col], isDecimal).Accept?
    ensures BindCell(m, line, isDecimal).Some?
  {
  }

  /** In a correct row every column the check visits passes. */
  lemma CorrectRowVisitedColumns(specs: seq<ColumnSpec>, cells: seq<Option<string>>, isDecimal: string -> bool, c: int)
    requires Classify(specs, Some(cells), isDecimal) == Correct && 0 <= c <= LastCellNum(cells)
    ensures ColumnVerdict(specs, Line(Some(cells)), c, isDecimal) != Some(Crash)
    ensures ColumnVerdict(specs, Line(Some(cells)), c, isDecimal) != Some(Reject)
  {
  }

  /** A mapping of a correct row whose column lies within the line binds. */
  lemma CorrectRowBindsCell(specs: seq<ColumnSpec>, cells: seq<Option<string>>, isDecimal: string -> bool, i: nat)
    requires DecimalCoversIntegers(isDecimal) && DistinctColumns(specs)
    requires i < |specs| && 0 <= specs[i].col < LastCellNum(cells)
    requires Classify(specs, Some(cells), isDecimal) == Correct
    ensures BindCell(specs[i], Line(Some(cells)), isDecimal).Some?
  {
    var line := Line(Some(cells));
    var m := specs[i];
    MappingAtDistinct(specs, i);
    CorrectRowVisitedColumns(specs, cells, isDecimal, m.col);
    assert ColumnVerdict(specs, line, m.col, isDecimal) == Some(CheckCell(m.ty, m.len, line[m.col], isDecimal));
    BindAcceptedCell(m, line, isDecimal);
  }

  /** Every mapping's column lies in [0, n). */
  predicate ColumnsBefore(specs: seq<ColumnSpec>, n: int) {
    forall i :: 0 <= i < |specs| ==> 0 <= specs[i].col < n
  }

  /**
   * A correct row binds without exception when every mapping's column lies
   * within its line and no two mappings share a column.
   */
  lemma CorrectRowBinds(specs: seq<ColumnSpec>, cells: seq<Option<string>>, isDecimal: string -> bool)
    requires DecimalCoversIntegers(isDecimal) && DistinctColumns(specs)
    requires ColumnsBefore(specs, LastCellNum(cells))
    requires Classify(specs, Some(cells), isDecimal) == Correct
    ensures BindRow(specs, Line(Some(cells)), isDecimal).Some?
  {
    var line := Line(Some(cells));
    forall i | 0 <= i < |specs| ensures BindCell(specs[i], line, isDecimal).Some? {
      CorrectRowBindsCell(specs, cells, isDecimal, i);
    }
    BindRowSpec(specs, line, isDecimal);
  }

  /**
   * An absent row is correct but has an empty line: binding it throws as
   * soon as there is a mapping.
   */
  lemma AbsentRowDoesNotBind(specs: seq<ColumnSpec>, isDecimal: string -> bool)
    requires specs != []
    ensures Classify(specs, None, isDecimal) == Correct
    ensures BindRow(specs, Line(None), isDecimal).None?
  {
    assert BindCell(specs[0], [], isDecimal).None?;
    BindRowSpec(specs, Line(None), isDecimal);
  }

  /**
   * Two mappings of one column with different types: the check uses the
   * first, binding uses both. A STRING first and an INTEGER second let a
   * non-number through the check and then throw at binding.
   */
  lemma SharedColumnDoesNotBind(a: ColumnSpec, b: ColumnSpec, v: string, isDecimal: string -> bool)
    requires a.col == 0 && b.col == 0 && a.ty == String && a.len >= 0 && b.ty == Integer
    requires ParseLong(v).None?
    ensures Classify([a, b], Some([Some(v)]), isDecimal) == Correct
    ensures BindRow([a, b], Line(Some([Some(v)])), isDecimal).None?
  {
    var line := Line(Some([Some(v)]));
    assert line == [v];
    assert MappingAt([a, b], 0) == Some(a);
    forall i | 0 <= i <= 1 ensures ColumnVerdict([a, b], line, i, isDecimal) != Some(Crash) &&
                                   ColumnVerdict([a, b], line, i, isDecimal) != Some(Reject) {
      if i == 1 {
        assert MappingAt([a, b], 1) == None;
      }
    }
    assert BindCell(b, line, isDecimal).None?;
    BindRowSpec([a, b], line, isDecimal);
  }
}
