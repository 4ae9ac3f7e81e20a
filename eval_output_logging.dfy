/**
 * `EvalOutputLogging`: collects, for every ICL benchmark, the response-cache
 * table of its metrics at the end of each evaluation, optionally keeping only
 * the incorrect rows and a random sample of them, and hands the accumulated
 * tables to a writer at the end of the evaluation phase, after which it starts
 * over with an empty table.
 */
module EvalOutputLogging {
  import opened Wrappers
  import opened Decimal
  import opened EvalRows

  const CorrectColumn := "correct"
  const FileNamePrefix := "eval-outputs-ba"
  const FileNameSuffix := ".tsv"

  /** The columns of a benchmark's table and its rows, each aligned to the columns. */
  datatype Table = Table(columns: seq<string>, rows: seq<Row>)

  /**
   * What one metric of the benchmark offers: `NoFormatter` when it cannot
   * format a response cache, else the `(columns, rows)` it formatted, either
   * of which may be `None`.
   */
  datatype MetricOutput =
    | NoFormatter
    | Formatted(columns: Option<seq<string>>, rows: Option<seq<Row>>)

  /** `ValueError` for a cache without a `correct` column; `IndexError` for a row too short to hold it. */
  datatype EvalError = MissingCorrectColumn | RowTooShort

  /** A formatted cache with both columns and rows, the only kind `eval_end` stores. */
  predicate Complete(m: MetricOutput) {
    m.Formatted? && m.columns.Some? && m.rows.Some?
  }

  /** `columns.index(name)`: the first position of `name`, if there is one. */
  function ColumnIndex(columns: seq<string>, name: string): (r: Option<nat>)
    ensures r.Some? <==> name in columns
    ensures r.Some? ==> r.value < |columns| && columns[r.value] == name
    ensures r.Some? ==> forall k :: 0 <= k < r.value ==> columns[k] != name
  {
    if columns == [] then None
    else if columns[0] == name then Some(0)
    else match ColumnIndex(columns[1..], name)
      case Some(i) => Some(i + 1)
      case None => None
  }

  /** The rows after the keep-only-incorrect filter, when it applies. */
  function Filtered(printOnlyIncorrect: bool, rows: seq<Row>, col: nat): seq<Row>
    requires printOnlyIncorrect ==> LongEnough(rows, col)
  {
    if printOnlyIncorrect then Incorrect(rows, col) else rows
  }

  /**
   * The rows `eval_end` stores for one formatted cache: after checking for the
   * `correct` column, the incorrect ones if asked, then a sample of
   * `min(len(rows), subset_sample)` of them when `subset_sample` is positive.
   */
  function KeptRows(printOnlyIncorrect: bool, subsetSample: int, columns: seq<string>, rows: seq<Row>,
                    draws: seq<int>): Result<seq<Row>, EvalError>
  {
    match ColumnIndex(columns, CorrectColumn)
    case None => Err(MissingCorrectColumn)
    case Some(col) =>
      if printOnlyIncorrect && !LongEnough(rows, col) then Err(RowTooShort)
      else
        var filtered := Filtered(printOnlyIncorrect, rows, col);
        Ok(if subsetSample > 0 then Sample(filtered, subsetSample, draws) else filtered)
  }

  /** The random numbers drawn while sampling the `i`-th metric's rows. */
  function DrawsAt(randomness: seq<seq<int>>, i: nat): seq<int> {
    if i < |randomness| then randomness[i] else []
  }

  datatype EvalEndOutcome = EvalEndOutcome(table: map<string, Table>, error: Option<EvalError>)

  /**
   * `eval_end` from the `i`-th metric on: every complete cache replaces the
   * benchmark's entry; the first error ends the call, keeping the entries
   * stored before it.
   */
  function EvalEndFrom(printOnlyIncorrect: bool, subsetSample: int, table: map<string, Table>, benchmark: string,
                       outputs: seq<MetricOutput>, randomness: seq<seq<int>>, i: nat): EvalEndOutcome
    requires i <= |outputs|
    decreases |outputs| - i
  {
    if i == |outputs| then EvalEndOutcome(table, None)
    else if !Complete(outputs[i]) then
      EvalEndFrom(printOnlyIncorrect, subsetSample, table, benchmark, outputs, randomness, i + 1)
    else
      var columns := outputs[i].columns.value;
      match KeptRows(printOnlyIncorrect, subsetSample, columns, outputs[i].rows.value, DrawsAt(randomness, i))
      case Err(e) => EvalEndOutcome(table, Some(e))
      case Ok(kept) =>
        EvalEndFrom(printOnlyIncorrect, subsetSample, table[benchmark := Table(columns, kept)], benchmark,
                    outputs, randomness, i + 1)
  }

  /** `eval-outputs-ba{batch}.tsv`. */
  function FileName(batch: nat): string {
    FileNamePrefix + NatToString(batch) + FileNameSuffix
  }

  /** `{output_directory}/{file_name}`. */
  function Destination(outputDirectory: string, batch: nat): string {
    outputDirectory + "/" + FileName(batch)
  }

  /** `output_directory if output_directory else os.getcwd()`. */
  function OutputDirectory(outputDirectory: Option<string>, cwd: string): (r: string)
    ensures outputDirectory.Some? && outputDirectory.value != "" ==> r == outputDirectory.value
    ensures outputDirectory.None? || outputDirectory.value == "" ==> r == cwd
  {
    match outputDirectory
    case Some(d) => if d != "" then d else cwd
    case None => cwd
  }

  /** Reads the batch number back from an output file name. */
  function ParseFileName(name: string): Option<nat> {
    if |name| < |FileNamePrefix| + |FileNameSuffix| then None
    else if name[..|FileNamePrefix|] != FileNamePrefix || name[|name| - |FileNameSuffix|..] != FileNameSuffix then None
    else ParseNat(name[|FileNamePrefix|..|name| - |FileNameSuffix|])
  }

  class EvalOutputLogging {
    const printOnlyIncorrect: bool
    const subsetSample: int
    const outputDirectory: string
    var table: map<string, Table>

    constructor (printOnlyIncorrect: bool, subsetSample: int, outputDirectory: Option<string>, cwd: string)
      ensures this.printOnlyIncorrect == printOnlyIncorrect && this.subsetSample == subsetSample
      ensures this.outputDirectory == OutputDirectory(outputDirectory, cwd)
      ensures table == map[]
    {
      this.printOnlyIncorrect := printOnlyIncorrect;
      this.subsetSample := subsetSample;
      this.outputDirectory := if outputDirectory.Some? && outputDirectory.value != "" then outputDirectory.value else cwd;
      table := map[];
    }

    /**
     * `eval_end` for an ICL benchmark, given what each of its metrics
     * formatted and the random numbers drawn for each metric's sample.
     */
    method EvalEnd(benchmark: string, outputs: seq<MetricOutput>, randomness: seq<seq<int>>)
      returns (error: Option<EvalError>)
      modifies this`table
      ensures EvalEndOutcome(table, error) ==
        EvalEndFrom(printOnlyIncorrect, subsetSample, old(table), benchmark, outputs, randomness, 0)
    {
      var i := 0;
      while i < |outputs|
        invariant 0 <= i <= |outputs|
        invariant EvalEndFrom(printOnlyIncorrect, subsetSample, table, benchmark, outputs, randomness, i) ==
                  EvalEndFrom(printOnlyIncorrect, subsetSample, old(table), benchmark, outputs, randomness, 0)
      {
        var output := outputs[i];
        if output.Formatted? && output.columns.Some? && output.rows.Some? {
          error := StoreOutput(benchmark, output.columns.value, output.rows.value, DrawsAt(randomness, i));
          if error.Some? {
            return;
          }
        }
        i := i + 1;
      }
      error := None;
    }

    /**
     * The body of `eval_end`'s loop for one metric whose cache has both
     * columns and rows: check for the `correct` column, keep the incorrect
     * rows if asked, sample them if asked, and store them for the benchmark.
     */
    method StoreOutput(benchmark: string, columns: seq<string>, rows: seq<Row>, draws: seq<int>)
      returns (error: Option<EvalError>)
      modifies this`table
      ensures match KeptRows(printOnlyIncorrect, subsetSample, columns, rows, draws)
        case Err(e) => error == Some(e) && table == old(table)
        case Ok(kept) => error == None && table == old(table)[benchmark := Table(columns, kept)]
    {
      var col := ColumnIndex(columns, CorrectColumn);
      if col.None? {
        return Some(MissingCorrectColumn);
      }
      var kept := rows;
      if printOnlyIncorrect {
        if !LongEnough(rows, col.value) {
          return Some(RowTooShort);
        }
        kept := Incorrect(rows, col.value);
      }
      if subsetSample > 0 {
        kept := Sample(kept, subsetSample, draws);
      }
      table := table[benchmark := Table(columns, kept)];
      error := None;
    }

    /**
     * `eval_after_all`: hands the accumulated tables to the writer, with the
     * destination it writes to, and empties the table.
     */
    method EvalAfterAll(batch: nat) returns (written: map<string, Table>, destination: string)
      modifies this`table
      ensures written == old(table) && destination == Destination(outputDirectory, batch)
      ensures table == map[]
    {
      written, destination := table, outputDirectory + "/" + FileName(batch);
      table := map[];
    }

    /** `eval_standalone_end`: the same as `eval_after_all`. */
    method EvalStandaloneEnd(batch: nat) returns (written: map<string, Table>, destination: string)
      modifies this`table
      ensures written == old(table) && destination == Destination(outputDirectory, batch)
      ensures table == map[]
    {
      written, destination := table, outputDirectory + "/" + FileName(batch);
      table := map[];
    }
  }

  // ---------------------------------------------------------------------------
  // Properties of one formatted cache
  // ---------------------------------------------------------------------------

  /** Without a `correct` column the cache is refused, whatever the settings. */
  lemma MissingCorrectColumnRefused(printOnlyIncorrect: bool, subsetSample: int, columns: seq<string>,
                                    rows: seq<Row>, draws: seq<int>)
    requires CorrectColumn !in columns
    ensures KeptRows(printOnlyIncorrect, subsetSample, columns, rows, draws) == Err(MissingCorrectColumn)
  {
  }

  /** With `print_only_incorrect`, a row without a cell in the `correct` column raises. */
  lemma ShortRowRefused(subsetSample: int, columns: seq<string>, rows: seq<Row>, draws: seq<int>, k: nat)
    requires CorrectColumn in columns
    requires k < |rows| && |rows[k].cells| <= ColumnIndex(columns, CorrectColumn).value
    ensures KeptRows(true, subsetSample, columns, rows, draws) == Err(RowTooShort)
  {
  }

  /** With neither option set, every row is kept as it is. */
  lemma AllRowsKept(subsetSample: int, columns: seq<string>, rows: seq<Row>, draws: seq<int>)
    requires CorrectColumn in columns && subsetSample <= 0
    ensures KeptRows(false, subsetSample, columns, rows, draws) == Ok(rows)
  {
  }

  /**
   * With `print_only_incorrect` and no sampling, the kept rows are exactly the
   * rows whose `correct` cell is falsy, in their original order.
   */
  lemma OnlyIncorrectRowsKept(subsetSample: int, columns: seq<string>, rows: seq<Row>, draws: seq<int>)
    requires CorrectColumn in columns && subsetSample <= 0
    requires LongEnough(rows, ColumnIndex(columns, CorrectColumn).value)
    ensures var col := ColumnIndex(columns, CorrectColumn).value;
      var r := KeptRows(true, subsetSample, columns, rows, draws);
      r.Ok? && r.value == Select(rows, FalsyPositions(rows, col, 0)) &&
      forall i :: 0 <= i < |r.value| ==> col < |r.value[i].cells| && !Truthy(r.value[i].cells[col])
  {
    var col := ColumnIndex(columns, CorrectColumn).value;
    IncorrectSelectsFalsyRows(rows, col);
    NoKeptRowIsCorrect(rows, col);
  }

  /**
   * With a positive `subset_sample`, the kept rows are `min(len(rows),
   * subset_sample)` of the filtered rows, from distinct positions.
   */
  lemma SampledRowsDistinct(printOnlyIncorrect: bool, subsetSample: int, columns: seq<string>, rows: seq<Row>,
                            draws: seq<int>)
    requires CorrectColumn in columns && subsetSample > 0
    requires printOnlyIncorrect ==> LongEnough(rows, ColumnIndex(columns, CorrectColumn).value)
    ensures var filtered := Filtered(printOnlyIncorrect, rows, ColumnIndex(columns, CorrectColumn).value);
      var r := KeptRows(printOnlyIncorrect, subsetSample, columns, rows, draws);
      var pos := SamplePositions(|filtered|, Min(|filtered|, subsetSample), draws);
      r.Ok? && |r.value| == Min(|filtered|, subsetSample) &&
      Distinct(pos) && (forall i :: 0 <= i < |pos| ==> pos[i] < |filtered|) &&
      forall i :: 0 <= i < |pos| ==> r.value[i] == filtered[pos[i]]
  {
    var filtered := Filtered(printOnlyIncorrect, rows, ColumnIndex(columns, CorrectColumn).value);
    SampleFromDistinctPositions(filtered, subsetSample, draws);
  }

  /**
   * With a positive `subset_sample`, any choice of `min(len(rows),
   * subset_sample)` distinct filtered rows is one the random numbers can make.
   */
  lemma EverySampleCanBeKept(printOnlyIncorrect: bool, subsetSample: int, columns: seq<string>, rows: seq<Row>,
                             choice: seq<nat>)
    requires CorrectColumn in columns && subsetSample > 0
    requires printOnlyIncorrect ==> LongEnough(rows, ColumnIndex(columns, CorrectColumn).value)
    requires var filtered := Filtered(printOnlyIncorrect, rows, ColumnIndex(columns, CorrectColumn).value);
      Distinct(choice) && |choice| == Min(|filtered|, subsetSample) &&
      forall i :: 0 <= i < |choice| ==> choice[i] < |filtered|
    ensures var filtered := Filtered(printOnlyIncorrect, rows, ColumnIndex(columns, CorrectColumn).value);
      exists draws :: KeptRows(printOnlyIncorrect, subsetSample, columns, rows, draws) == Ok(Select(filtered, choice))
  {
    var filtered := Filtered(printOnlyIncorrect, rows, ColumnIndex(columns, CorrectColumn).value);
    EverySampleReachable(filtered, subsetSample, choice);
    var draws :| SamplePositions(|filtered|, Min(|filtered|, subsetSample), draws) == choice;
    assert KeptRows(printOnlyIncorrect, subsetSample, columns, rows, draws) == Ok(Select(filtered, choice));
  }

  // ---------------------------------------------------------------------------
  // Properties of `eval_end`
  // ---------------------------------------------------------------------------

  /** Metrics without a complete cache change nothing. */
  lemma {:induction false} IncompleteOutputsSkipped(printOnlyIncorrect: bool, subsetSample: int,
                                                    table: map<string, Table>, benchmark: string,
                                                    outputs: seq<MetricOutput>, randomness: seq<seq<int>>,
                                                    i: nat, k: nat)
    requires i <= k <= |outputs|
    requires forall j :: i <= j < k ==> !Complete(outputs[j])
    ensures EvalEndFrom(printOnlyIncorrect, subsetSample, table, benchmark, outputs, randomness, i) ==
            EvalEndFrom(printOnlyIncorrect, subsetSample, table, benchmark, outputs, randomness, k)
    decreases k - i
  {
    if i < k {
      IncompleteOutputsSkipped(printOnlyIncorrect, subsetSample, table, benchmark, outputs, randomness, i + 1, k);
    }
  }

  /**
   * When the first complete cache has no `correct` column, `eval_end` raises
   * `ValueError` before it changes the table.
   */
  lemma MissingCorrectColumnRaises(printOnlyIncorrect: bool, subsetSample: int, table: map<string, Table>,
                                   benchmark: string, outputs: seq<MetricOutput>, randomness: seq<seq<int>>, k: nat)
    requires k < |outputs| && Complete(outputs[k]) && CorrectColumn !in outputs[k].columns.value
    requires forall j :: 0 <= j < k ==> !Complete(outputs[j])
    ensures EvalEndFrom(printOnlyIncorrect, subsetSample, table, benchmark, outputs, randomness, 0) ==
            EvalEndOutcome(table, Some(MissingCorrectColumn))
  {
    IncompleteOutputsSkipped(printOnlyIncorrect, subsetSample, table, benchmark, outputs, randomness, 0, k);
  }

  /**
   * `eval_end` over all the outputs runs the outputs before `k` first and
   * carries on from `k` with the table they left, as long as they raised
   * nothing.
   */
  lemma {:induction false} RunSplits(printOnlyIncorrect: bool, subsetSample: int, table: map<string, Table>,
                                     benchmark: string, outputs: seq<MetricOutput>, randomness: seq<seq<int>>,
                                     i: nat, k: nat)
    requires i <= k <= |outputs|
    requires EvalEndFrom(printOnlyIncorrect, subsetSample, table, benchmark, outputs[..k], randomness, i).error.None?
    ensures EvalEndFrom(printOnlyIncorrect, subsetSample, table, benchmark, outputs, randomness, i) ==
            EvalEndFrom(printOnlyIncorrect, subsetSample,
                        EvalEndFrom(printOnlyIncorrect, subsetSample, table, benchmark, outputs[..k], randomness, i).table,
                        benchmark, outputs, randomness, k)
    decreases k - i
  {
    if i < k {
      assert outputs[..k][i] == outputs[i];
      if Complete(outputs[i]) {
        var columns := outputs[i].columns.value;
        var r := KeptRows(printOnlyIncorrect, subsetSample, columns, outputs[i].rows.value, DrawsAt(randomness, i));
        if r.Ok? {
          RunSplits(printOnlyIncorrect, subsetSample, table[benchmark := Table(columns, r.value)], benchmark,
                    outputs, randomness, i + 1, k);
        }
      } else {
        RunSplits(printOnlyIncorrect, subsetSample, table, benchmark, outputs, randomness, i + 1, k);
      }
    }
  }

  /**
   * The first complete cache whose rows cannot be kept ends `eval_end` with
   * its error; the table is the one the outputs before it left.
   */
  lemma FirstErrorRaises(printOnlyIncorrect: bool, subsetSample: int, table: map<string, Table>,
                         benchmark: string, outputs: seq<MetricOutput>, randomness: seq<seq<int>>, k: nat)
    requires k < |outputs| && Complete(outputs[k])
    requires KeptRows(printOnlyIncorrect, subsetSample, outputs[k].columns.value, outputs[k].rows.value,
                      DrawsAt(randomness, k)).Err?
    requires EvalEndFrom(printOnlyIncorrect, subsetSample, table, benchmark, outputs[..k], randomness, 0).error.None?
    ensures EvalEndFrom(printOnlyIncorrect, subsetSample, table, benchmark, outputs, randomness, 0) ==
            EvalEndOutcome(EvalEndFrom(printOnlyIncorrect, subsetSample, table, benchmark, outputs[..k], randomness, 0).table,
                           Some(KeptRows(printOnlyIncorrect, subsetSample, outputs[k].columns.value, outputs[k].rows.value,
                                         DrawsAt(randomness, k)).error))
  {
    RunSplits(printOnlyIncorrect, subsetSample, table, benchmark, outputs, randomness, 0, k);
  }

  /** `eval_end` touches no benchmark's entry but its own. */
  lemma {:induction false} OtherBenchmarksUnchanged(printOnlyIncorrect: bool, subsetSample: int,
                                                    table: map<string, Table>, benchmark: string,
                                                    outputs: seq<MetricOutput>, randomness: seq<seq<int>>, i: nat)
    requires i <= |outputs|
    ensures EvalEndFrom(printOnlyIncorrect, subsetSample, table, benchmark, outputs, randomness, i).table
              - {benchmark} == table - {benchmark}
    decreases |outputs| - i
  {
    if i < |outputs| {
      if !Complete(outputs[i]) {
        OtherBenchmarksUnchanged(printOnlyIncorrect, subsetSample, table, benchmark, outputs, randomness, i + 1);
      } else {
        var columns := outputs[i].columns.value;
        var r := KeptRows(printOnlyIncorrect, subsetSample, columns, outputs[i].rows.value, DrawsAt(randomness, i));
        if r.Ok? {
          var next := table[benchmark := Table(columns, r.value)];
          OtherBenchmarksUnchanged(printOnlyIncorrect, subsetSample, next, benchmark, outputs, randomness, i + 1);
          assert next - {benchmark} == table - {benchmark};
        }
      }
    }
  }

  /**
   * After an `eval_end` that raised nothing, the benchmark's entry holds the
   * columns and the kept rows of its last complete cache.
   */
  lemma {:induction false} LastCompleteOutputStored(printOnlyIncorrect: bool, subsetSample: int,
                                                    table: map<string, Table>, benchmark: string,
                                                    outputs: seq<MetricOutput>, randomness: seq<seq<int>>,
                                                    i: nat, k: nat)
    requires i <= k < |outputs| && Complete(outputs[k])
    requires forall j :: k < j < |outputs| ==> !Complete(outputs[j])
    requires EvalEndFrom(printOnlyIncorrect, subsetSample, table, benchmark, outputs, randomness, i).error.None?
    ensures var r := EvalEndFrom(printOnlyIncorrect, subsetSample, table, benchmark, outputs, randomness, i);
      var kept := KeptRows(printOnlyIncorrect, subsetSample, outputs[k].columns.value, outputs[k].rows.value,
                           DrawsAt(randomness, k));
      kept.Ok? && benchmark in r.table && r.table[benchmark] == Table(outputs[k].columns.value, kept.value)
    decreases k - i
  {
    if i < k {
      if !Complete(outputs[i]) {
        LastCompleteOutputStored(printOnlyIncorrect, subsetSample, table, benchmark, outputs, randomness, i + 1, k);
      } else {
        var columns := outputs[i].columns.value;
        var r := KeptRows(printOnlyIncorrect, subsetSample, columns, outputs[i].rows.value, DrawsAt(randomness, i));
        var next := table[benchmark := Table(columns, r.value)];
        LastCompleteOutputStored(printOnlyIncorrect, subsetSample, next, benchmark, outputs, randomness, i + 1, k);
      }
    } else {
      var columns := outputs[k].columns.value;
      var r := KeptRows(printOnlyIncorrect, subsetSample, columns, outputs[k].rows.value, DrawsAt(randomness, k));
      var next := table[benchmark := Table(columns, r.value)];
      IncompleteOutputsSkipped(printOnlyIncorrect, subsetSample, next, benchmark, outputs, randomness,
                               k + 1, |outputs|);
    }
  }

  /** A benchmark whose metrics formatted no complete cache leaves the table as it was. */
  lemma NoCompleteOutputNoChange(printOnlyIncorrect: bool, subsetSample: int, table: map<string, Table>,
                                 benchmark: string, outputs: seq<MetricOutput>, randomness: seq<seq<int>>)
    requires forall j :: 0 <= j < |outputs| ==> !Complete(outputs[j])
    ensures EvalEndFrom(printOnlyIncorrect, subsetSample, table, benchmark, outputs, randomness, 0) ==
            EvalEndOutcome(table, None)
  {
    IncompleteOutputsSkipped(printOnlyIncorrect, subsetSample, table, benchmark, outputs, randomness, 0, |outputs|);
  }

  // ---------------------------------------------------------------------------
  // Output file names
  // ---------------------------------------------------------------------------

  /** The batch number is read back from the file name. */
  lemma FileNameRoundTrip(batch: nat)
    ensures ParseFileName(FileName(batch)) == Some(batch)
  {
    var name := FileName(batch);
    var digits := NatToString(batch);
    assert name[..|FileNamePrefix|] == FileNamePrefix;
    assert name[|name| - |FileNameSuffix|..] == FileNameSuffix;
    assert name[|FileNamePrefix|..|name| - |FileNameSuffix|] == digits;
    NatRoundTrip(batch);
  }

  /** Different batches write different files. */
  lemma FileNameInjective(a: nat, b: nat)
    ensures FileName(a) == FileName(b) <==> a == b
  {
    if FileName(a) == FileName(b) {
      FileNameRoundTrip(a);
      FileNameRoundTrip(b);
    }
  }

  /** The destination is the output directory, a `/`, and the file name. */
  lemma DestinationParts(outputDirectory: string, batch: nat)
    ensures var d := Destination(outputDirectory, batch);
      d[..|outputDirectory|] == outputDirectory && d[|outputDirectory|] == '/' &&
      ParseFileName(d[|outputDirectory| + 1..]) == Some(batch)
  {
    var d := Destination(outputDirectory, batch);
    assert d[|outputDirectory| + 1..] == FileName(batch);
    FileNameRoundTrip(batch);
  }
}
