/** The offline batch-replay validator: it checks the submission's schema,
    then replays the evaluation batches in order, selects the submitted rows
    each batch asks for, hands them to the harness's own check and stops at
    the first failure. */
module Validator {
  import opened Basics

  type Id = string

  /** The submission file as loaded: absent, or its column names and its rows
      keyed by `id` (ids are unique, so a map). */
  datatype SubmissionFile = Absent | Present(columns: set<string>, rows: map<Id, Point>)

  /** The row-id table a batch comes with, by its runtime type. Frames are
      given column by column. */
  datatype RowIdTable =
    | PolarsFrame(frameColumns: seq<seq<Id>>)
    | PandasFrame(frameColumns: seq<seq<Id>>)
    | PandasSeries(values: seq<Id>)
    | OtherType

  /** One batch from the batch source: an opaque payload and its row ids. */
  datatype Batch<P> = Batch(payload: P, rowIds: RowIdTable)

  /** Why the row ids of a batch could not be read: an unsupported type
      (`ValueError`) or a frame with no column to take (`IndexError`). */
  datatype RowIdFault = UnsupportedType | NoColumns

  datatype ConfigFault = FileNotFound | NoIdColumn | NoCoordinateColumns

  /** The run's counters: rows validated so far and the 1-based batch index. */
  datatype Totals = Totals(rows: nat, batches: nat)

  /** How a run ends. A failure carries the counters as they stood when the
      run stopped, so `batches` is the index of the failing batch. */
  datatype Outcome<E> =
    | Success(totals: Totals)
    | ConfigError(fault: ConfigFault)
    | MissingIds(totals: Totals, missing: seq<Id>)
    | HarnessError(totals: Totals, error: E)
    | Unhandled(totals: Totals, rowIdFault: RowIdFault)

  /** The process exit status of each outcome; an exception that escapes the
      handler ends the Python process with status 1. */
  function ExitCode<E>(o: Outcome<E>): nat {
    match o
    case Success(_) => 0
    case ConfigError(_) => 2
    case MissingIds(_, _) => 2
    case HarnessError(_, _) => 3
    case Unhandled(_, _) => 1
  }

  /** The ids of a batch: the first column of its row-id table, in order. */
  function FirstColumn(t: RowIdTable): (r: Result<seq<Id>, RowIdFault>)
    ensures r.Ok? <==> t.PandasSeries? || ((t.PolarsFrame? || t.PandasFrame?) && |t.frameColumns| > 0)
    ensures t.PandasSeries? ==> r == Ok(t.values)
    ensures r.Ok? && !t.PandasSeries? ==> r.value == t.frameColumns[0]
    ensures t.OtherType? ==> r == Err(UnsupportedType)
    ensures (t.PolarsFrame? || t.PandasFrame?) && |t.frameColumns| == 0 ==> r == Err(NoColumns)
  {
    match t
    case PandasSeries(values) => Ok(values)
    case OtherType => Err(UnsupportedType)
    case _ => if |t.frameColumns| == 0 then Err(NoColumns) else Ok(t.frameColumns[0])
  }

  /** The requested ids that the submission lacks, in request order. */
  function MissingOf(sub: map<Id, Point>, ids: seq<Id>): (missing: seq<Id>)
    ensures forall id :: id in missing <==> id in ids && id !in sub
  {
    if ids == [] then []
    else (if ids[0] in sub then [] else [ids[0]]) + MissingOf(sub, ids[1..])
  }

  /** Label-based selection: the submitted rows for the requested ids, or the ids it lacks. */
  datatype Selection = Found(points: seq<Point>) | Missing(ids: seq<Id>)

  /** The submitted coordinates of each requested id, in request order. */
  function Answers(sub: map<Id, Point>, ids: seq<Id>): (points: seq<Point>)
    requires forall i | 0 <= i < |ids| :: ids[i] in sub
  {
    seq(|ids|, i requires 0 <= i < |ids| => sub[ids[i]])
  }

  /** Order-preserving selection of the submission's rows by id, keeping only
      the coordinate columns. */
  function Select(sub: map<Id, Point>, ids: seq<Id>): (r: Selection)
    ensures r.Found? <==> forall i | 0 <= i < |ids| :: ids[i] in sub
    ensures r.Found? ==> |r.points| == |ids| && forall i | 0 <= i < |ids| :: ids[i] in sub && r.points[i] == sub[ids[i]]
    ensures r.Missing? ==> |r.ids| > 0 && forall id :: id in r.ids <==> id in ids && id !in sub
  {
    var missing := MissingOf(sub, ids);
    if missing == [] then
      Found(Answers(sub, ids))
    else
      assert missing[0] in missing;
      Missing(missing)
  }

  /** What happens to one batch. */
  datatype Verdict<E> = Passed(count: nat) | Unreadable(fault: RowIdFault) | Lacking(ids: seq<Id>) | Rejected(error: E)

  /** One batch: read its ids, select the rows, run the external check on them. */
  function Examine<P, E>(sub: map<Id, Point>, b: Batch<P>, check: (seq<Point>, RowIdTable, P) -> Option<E>): (v: Verdict<E>)
    ensures v.Passed? <==>
              && FirstColumn(b.rowIds).Ok?
              && Select(sub, FirstColumn(b.rowIds).value).Found?
              && check(Select(sub, FirstColumn(b.rowIds).value).points, b.rowIds, b.payload).None?
    ensures v.Passed? ==> v.count == |FirstColumn(b.rowIds).value|
    ensures v.Unreadable? <==> FirstColumn(b.rowIds).Err?
    ensures v.Unreadable? ==> v.fault == FirstColumn(b.rowIds).fault
    ensures v.Rejected? <==>
              && FirstColumn(b.rowIds).Ok?
              && Select(sub, FirstColumn(b.rowIds).value).Found?
              && check(Select(sub, FirstColumn(b.rowIds).value).points, b.rowIds, b.payload).Some?
    ensures v.Rejected? ==>
              check(Select(sub, FirstColumn(b.rowIds).value).points, b.rowIds, b.payload) == Some(v.error)
    ensures v.Lacking? ==>
              && FirstColumn(b.rowIds).Ok?
              && |v.ids| > 0
              && forall id :: id in v.ids <==> id in FirstColumn(b.rowIds).value && id !in sub
  {
    match FirstColumn(b.rowIds)
    case Err(f) => Unreadable(f)
    case Ok(ids) =>
      match Select(sub, ids)
      case Missing(ms) => Lacking(ms)
      case Found(points) =>
        match check(points, b.rowIds, b.payload)
        case Some(e) => Rejected(e)
        case None => Passed(|points|)
  }

  /** The outcome of a run stopped by a failing batch. */
  function Stop<E>(t: Totals, v: Verdict<E>): Outcome<E>
    requires !v.Passed?
  {
    match v
    case Unreadable(f) => Unhandled(t, f)
    case Lacking(ids) => MissingIds(t, ids)
    case Rejected(e) => HarnessError(t, e)
  }

  /** The batch loop: a fold over the batch sequence from counters `done`. */
  function Replay<P, E>(sub: map<Id, Point>, batches: seq<Batch<P>>,
                        check: (seq<Point>, RowIdTable, P) -> Option<E>, done: Totals): (o: Outcome<E>)
    ensures !o.ConfigError?
    decreases |batches|
  {
    if batches == [] then Success(done)
    else
      var index := done.batches + 1;
      var v := Examine(sub, batches[0], check);
      if v.Passed? then Replay(sub, batches[1..], check, Totals(done.rows + v.count, index))
      else Stop(Totals(done.rows, index), v)
  }

  predicate SchemaOk(file: SubmissionFile) {
    file.Present? && "id" in file.columns && {"x", "y"} <= file.columns
  }

  /** The whole run: the schema checks in order, then the batch loop from zero counters. */
  function Validate<P, E>(file: SubmissionFile, batches: seq<Batch<P>>,
                          check: (seq<Point>, RowIdTable, P) -> Option<E>): (o: Outcome<E>)
    ensures o.ConfigError? <==> !SchemaOk(file)
    ensures file.Absent? ==> o == ConfigError(FileNotFound)
    ensures file.Present? && "id" !in file.columns ==> o == ConfigError(NoIdColumn)
    ensures file.Present? && "id" in file.columns && !({"x", "y"} <= file.columns) ==> o == ConfigError(NoCoordinateColumns)
  {
    if file.Absent? then ConfigError(FileNotFound)
    else if "id" !in file.columns then ConfigError(NoIdColumn)
    else if !({"x", "y"} <= file.columns) then ConfigError(NoCoordinateColumns)
    else Replay(file.rows, batches, check, Totals(0, 0))
  }

  /** The number of ids a batch requests (none when its ids cannot be read). */
  function Requested<P>(b: Batch<P>): nat {
    match FirstColumn(b.rowIds)
    case Ok(ids) => |ids|
    case Err(_) => 0
  }

  /** The number of ids requested by a sequence of batches. */
  function RequestedRows<P>(batches: seq<Batch<P>>): nat {
    if batches == [] then 0 else Requested(batches[0]) + RequestedRows(batches[1..])
  }

  /** The loop stops at the first failing batch `k` (0-based), reporting the
      1-based index `k + 1` and only the rows of the batches before it. */
  lemma {:induction false} ReplayStopsAtFirstFailure<P, E>(sub: map<Id, Point>, batches: seq<Batch<P>>,
                                                           check: (seq<Point>, RowIdTable, P) -> Option<E>,
                                                           done: Totals, k: nat)
    requires k < |batches|
    requires forall i | 0 <= i < k :: Examine(sub, batches[i], check).Passed?
    requires !Examine(sub, batches[k], check).Passed?
    ensures Replay(sub, batches, check, done) ==
              Stop(Totals(done.rows + RequestedRows(batches[..k]), done.batches + k + 1), Examine(sub, batches[k], check))
  {
    if k > 0 {
      var v := Examine(sub, batches[0], check);
      ReplayStopsAtFirstFailure(sub, batches[1..], check, Totals(done.rows + v.count, done.batches + 1), k - 1);
      assert batches[..k][1..] == batches[1..][..k - 1];
    }
  }

  /** When every batch passes, the loop succeeds having counted every batch and every requested row. */
  lemma {:induction false} ReplayAllPass<P, E>(sub: map<Id, Point>, batches: seq<Batch<P>>,
                                               check: (seq<Point>, RowIdTable, P) -> Option<E>, done: Totals)
    requires forall i | 0 <= i < |batches| :: Examine(sub, batches[i], check).Passed?
    ensures Replay(sub, batches, check, done) ==
              Success(Totals(done.rows + RequestedRows(batches), done.batches + |batches|))
  {
    if batches != [] {
      var v := Examine(sub, batches[0], check);
      ReplayAllPass(sub, batches[1..], check, Totals(done.rows + v.count, done.batches + 1));
    }
  }

  /** The loop succeeds only if every batch passed. */
  lemma {:induction false} ReplaySuccessMeansAllPassed<P, E>(sub: map<Id, Point>, batches: seq<Batch<P>>,
                                                             check: (seq<Point>, RowIdTable, P) -> Option<E>, done: Totals)
    requires Replay(sub, batches, check, done).Success?
    ensures forall i | 0 <= i < |batches| :: Examine(sub, batches[i], check).Passed?
  {
    if batches != [] {
      var v := Examine(sub, batches[0], check);
      ReplaySuccessMeansAllPassed(sub, batches[1..], check, Totals(done.rows + v.count, done.batches + 1));
      forall i | 0 <= i < |batches| ensures Examine(sub, batches[i], check).Passed? {
        if i > 0 {
          assert batches[i] == batches[1..][i - 1];
        }
      }
    }
  }

  /** A well-formed run succeeds exactly when every batch passes, and then it
      has counted every batch and every requested row. */
  lemma SucceedsIffEveryBatchPasses<P, E>(file: SubmissionFile, batches: seq<Batch<P>>,
                                          check: (seq<Point>, RowIdTable, P) -> Option<E>)
    requires SchemaOk(file)
    ensures Validate(file, batches, check).Success? <==>
              forall i | 0 <= i < |batches| :: Examine(file.rows, batches[i], check).Passed?
    ensures Validate(file, batches, check).Success? ==>
              Validate(file, batches, check).totals == Totals(RequestedRows(batches), |batches|)
  {
    if Validate(file, batches, check).Success? {
      ReplaySuccessMeansAllPassed(file.rows, batches, check, Totals(0, 0));
    }
    if forall i | 0 <= i < |batches| :: Examine(file.rows, batches[i], check).Passed? {
      ReplayAllPass(file.rows, batches, check, Totals(0, 0));
    }
  }

  /** A run whose first failing batch is batch `k + 1` ends there with that
      batch's failure, the counters of the batches before it, and the exit
      status of that failure kind. */
  lemma StopsAtFirstFailure<P, E>(file: SubmissionFile, batches: seq<Batch<P>>,
                                  check: (seq<Point>, RowIdTable, P) -> Option<E>, k: nat)
    requires SchemaOk(file)
    requires k < |batches|
    requires forall i | 0 <= i < k :: Examine(file.rows, batches[i], check).Passed?
    requires !Examine(file.rows, batches[k], check).Passed?
    ensures Validate(file, batches, check) ==
              Stop(Totals(RequestedRows(batches[..k]), k + 1), Examine(file.rows, batches[k], check))
    ensures ExitCode(Validate(file, batches, check)) ==
              match Examine(file.rows, batches[k], check)
              case Lacking(_) => 2
              case Rejected(_) => 3
              case _ => 1
  {
    ReplayStopsAtFirstFailure(file.rows, batches, check, Totals(0, 0), k);
  }

  /** A run that does not succeed has a first failing batch, and stopped there. */
  lemma FailureHasFirstFailingBatch<P, E>(file: SubmissionFile, batches: seq<Batch<P>>,
                                          check: (seq<Point>, RowIdTable, P) -> Option<E>)
    requires SchemaOk(file)
    requires !Validate(file, batches, check).Success?
    ensures exists k | 0 <= k < |batches| ::
              && (forall i | 0 <= i < k :: Examine(file.rows, batches[i], check).Passed?)
              && !Examine(file.rows, batches[k], check).Passed?
              && Validate(file, batches, check) ==
                   Stop(Totals(RequestedRows(batches[..k]), k + 1), Examine(file.rows, batches[k], check))
  {
    SucceedsIffEveryBatchPasses(file, batches, check);
    var k := 0;
    while Examine(file.rows, batches[k], check).Passed?
      invariant k < |batches|
      invariant forall i | 0 <= i < k :: Examine(file.rows, batches[i], check).Passed?
      invariant exists j | k <= j < |batches| :: !Examine(file.rows, batches[j], check).Passed?
      decreases |batches| - k
    {
      k := k + 1;
    }
    StopsAtFirstFailure(file, batches, check, k);
  }

  /** Nothing after the first failing batch is looked at: replacing the
      batches that follow it leaves the outcome unchanged. */
  lemma LaterBatchesUnexamined<P, E>(file: SubmissionFile, batches: seq<Batch<P>>, later: seq<Batch<P>>,
                                     check: (seq<Point>, RowIdTable, P) -> Option<E>, k: nat)
    requires SchemaOk(file)
    requires k < |batches|
    requires forall i | 0 <= i < k :: Examine(file.rows, batches[i], check).Passed?
    requires !Examine(file.rows, batches[k], check).Passed?
    ensures Validate(file, batches[..k + 1] + later, check) == Validate(file, batches, check)
  {
    var replaced := batches[..k + 1] + later;
    assert forall i | 0 <= i <= k :: replaced[i] == batches[i];
    assert replaced[..k] == batches[..k];
    StopsAtFirstFailure(file, batches, check, k);
    StopsAtFirstFailure(file, replaced, check, k);
  }

  /** A schema failure ends the run before any batch is read, with exit status 2. */
  lemma SchemaChecksPrecedeBatches<P, E>(file: SubmissionFile, batches1: seq<Batch<P>>, batches2: seq<Batch<P>>,
                                         check1: (seq<Point>, RowIdTable, P) -> Option<E>,
                                         check2: (seq<Point>, RowIdTable, P) -> Option<E>)
    requires !SchemaOk(file)
    ensures Validate(file, batches1, check1) == Validate(file, batches2, check2)
    ensures ExitCode(Validate(file, batches1, check1)) == 2
  {
  }

  /** An empty batch source succeeds with zero rows and zero batches. */
  lemma EmptySourceSucceeds<P, E>(file: SubmissionFile, check: (seq<Point>, RowIdTable, P) -> Option<E>)
    requires SchemaOk(file)
    ensures Validate(file, [], check) == Success(Totals(0, 0))
  {
  }

  /** A submission holding the true answer of every requested id passes,
      provided the harness accepts true answers. */
  lemma GroundTruthAccepted<P, E>(truth: map<Id, Point>, batches: seq<Batch<P>>,
                                  check: (seq<Point>, RowIdTable, P) -> Option<E>)
    requires forall i | 0 <= i < |batches| :: FirstColumn(batches[i].rowIds).Ok?
    requires forall i, j | 0 <= i < |batches| && 0 <= j < |FirstColumn(batches[i].rowIds).value| ::
               FirstColumn(batches[i].rowIds).value[j] in truth
    requires forall i | 0 <= i < |batches| ::
               check(Answers(truth, FirstColumn(batches[i].rowIds).value), batches[i].rowIds, batches[i].payload).None?
    ensures Validate(Present({"id", "x", "y"}, truth), batches, check) ==
              Success(Totals(RequestedRows(batches), |batches|))
  {
    var file := Present({"id", "x", "y"}, truth);
    SucceedsIffEveryBatchPasses(file, batches, check);
  }

  /** A concrete sequence of batches asking for ids "1", "2", "42" and "4" in turn. */
  function FourBatches(): seq<Batch<int>> {
    [Batch(1, PandasSeries(["1"])), Batch(2, PolarsFrame([["2"]])),
     Batch(3, PandasFrame([["42"]])), Batch(4, PandasSeries(["4"]))]
  }

  /** Id "42", requested by batch 3, is missing: the run stops at batch 3
      naming "42", with exit status 2, whatever follows batch 3. */
  lemma MissingIdStopsAtItsBatch(later: seq<Batch<int>>)
    ensures var file := Present({"id", "x", "y"}, map["1" := Origin, "2" := Origin, "4" := Origin]);
            var accept: (seq<Point>, RowIdTable, int) -> Option<string> := (points, ids, p) => None;
            var o := Validate(file, FourBatches()[..3] + later, accept);
            o == MissingIds(Totals(2, 3), ["42"]) && ExitCode(o) == 2
  {
    var file := Present({"id", "x", "y"}, map["1" := Origin, "2" := Origin, "4" := Origin]);
    var accept: (seq<Point>, RowIdTable, int) -> Option<string> := (points, ids, p) => None;
    var bs := FourBatches();
    assert Examine(file.rows, bs[0], accept).Passed?;
    assert Examine(file.rows, bs[1], accept).Passed?;
    assert FirstColumn(bs[2].rowIds) == Ok(["42"]);
    assert MissingOf(file.rows, ["42"]) == ["42"] by {
      assert ["42"][1..] == [];
    }
    assert Examine(file.rows, bs[2], accept) == Lacking(["42"]);
    LaterBatchesUnexamined(file, bs, later, accept, 2);
    StopsAtFirstFailure(file, bs, accept, 2);
    assert bs[..2][1..] == [bs[1]];
  }

  /** The harness rejects batch 2: the run stops there with exit status 3,
      having counted only batch 1's row. */
  lemma RejectedBatchCountsOnlyEarlierRows()
    ensures var file := Present({"id", "x", "y"}, map["1" := Origin, "2" := Origin, "42" := Origin, "4" := Origin]);
            var reject2: (seq<Point>, RowIdTable, int) -> Option<string> := (points, ids, p) => if p == 2 then Some("bad values") else None;
            var o := Validate(file, FourBatches(), reject2);
            o == HarnessError(Totals(1, 2), "bad values") && ExitCode(o) == 3
  {
  }
}
