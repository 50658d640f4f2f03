/** The day-2 traffic replayer: for every row of the day-2 data it builds the
    request payload, reads the prediction from the endpoint's reply, and keeps
    one `{"prediction", "actual"}` record per successful reply; the records
    then replace the contents of the production log. */
module Day2Inference {
  import opened PyValues
  import Monitor

  const TargetColumn := "Machine failure"

  /** One row of the data frame: a value per column. */
  type Row = map<string, Value>

  /** The day-2 data frame, with its column names already stripped. */
  datatype Dataset = Dataset(columns: seq<string>, rows: seq<Row>)

  /** Every row has a value for exactly the data's columns. */
  ghost predicate WellFormed(data: Dataset) {
    forall i, c :: 0 <= i < |data.rows| ==> (c in data.rows[i] <==> c in data.columns)
  }

  /** `input_data` built from `row`: exactly the feature columns the row has,
      plus `Type` when the data has a `Type` column, each with the row's value,
      every key once. */
  ghost predicate IsInputData(row: Row, hasType: bool, featureNames: seq<string>, input: Dict) {
    Distinct(Keys(input)) &&
    (forall k :: k in Keys(input) <==> (k in featureNames && k in row) || (hasType && k == TypeColumn)) &&
    (forall j :: 0 <= j < |input| ==> input[j].key in row && input[j].value == row[input[j].key])
  }

  /** `input_data` after the feature loop of lines 41-43 has run over `names`. */
  function FeatureInput(row: Row, names: seq<string>): (input: Dict)
    ensures Distinct(Keys(input))
    ensures |input| <= |names|
    decreases |names|
  {
    if names == [] then []
    else
      var prev := FeatureInput(row, names[..|names| - 1]);
      var col := names[|names| - 1];
      if col in row then Put(prev, col, row[col]) else prev
  }

  /** `input_data` as sent (lines 39-47).  `hasType` is whether the data has a
      `Type` column, in which case every row has a `Type` value. */
  function InputData(row: Row, hasType: bool, featureNames: seq<string>): (input: Dict)
    ensures Distinct(Keys(input)) && |input| <= |featureNames| + 1
    ensures hasType && TypeColumn in row ==>
      TypeColumn in Keys(input) && Get(input, TypeColumn) == row[TypeColumn]
    ensures !hasType ==> input == FeatureInput(row, featureNames)
  {
    var base := FeatureInput(row, featureNames);
    if hasType && TypeColumn in row then Put(base, TypeColumn, row[TypeColumn]) else base
  }

  lemma {:induction false} FeatureInputKeys(row: Row, names: seq<string>)
    ensures forall k :: k in Keys(FeatureInput(row, names)) <==> k in names && k in row
    ensures forall j :: 0 <= j < |FeatureInput(row, names)| ==>
      FeatureInput(row, names)[j].key in row &&
      FeatureInput(row, names)[j].value == row[FeatureInput(row, names)[j].key]
    decreases |names|
  {
    if names != [] {
      var init := names[..|names| - 1];
      FeatureInputKeys(row, init);
      assert names == init + [names[|names| - 1]];
    }
  }

  lemma InputDataIs(row: Row, hasType: bool, featureNames: seq<string>)
    requires hasType ==> TypeColumn in row
    ensures IsInputData(row, hasType, featureNames, InputData(row, hasType, featureNames))
  {
    FeatureInputKeys(row, featureNames);
  }

  /** Lines 39-47: copy every feature column the row has, then `Type`. */
  method BuildInput(row: Row, hasType: bool, featureNames: seq<string>) returns (input: Dict)
    requires hasType ==> TypeColumn in row
    ensures input == InputData(row, hasType, featureNames)
  {
    input := [];
    for i := 0 to |featureNames|
      invariant input == FeatureInput(row, featureNames[..i])
    {
      assert featureNames[..i + 1][..i] == featureNames[..i];
      var col := featureNames[i];
      if col in row {
        input := Put(input, col, row[col]);
      }
    }
    assert featureNames[..|featureNames|] == featureNames;
    if hasType {
      input := Put(input, TypeColumn, row[TypeColumn]);
    }
  }

  /** What the endpoint call gives back: `PostFailed` when `requests.post`,
      `.json()` or `.get` raises; otherwise the decoded JSON object. */
  datatype Reply = PostFailed | Body(json: map<string, Value>)

  datatype LogRecord = LogRecord(prediction: int, actual: int)

  /** `response_json.get("prediction")`: an absent key and JSON null are both `None`. */
  function PredictionField(json: map<string, Value>): Value {
    if "prediction" in json then json["prediction"] else Null
  }

  /** Lines 49-65 for one row: a record when the reply holds a prediction and
      both `int(...)` conversions succeed, otherwise nothing (an error). */
  function RowOutcome(actual: Value, reply: Reply): (r: Option<LogRecord>)
    ensures r.Some? <==>
      reply.Body? && PredictionField(reply.json) != Null &&
      PyInt(PredictionField(reply.json)).Some? && PyInt(actual).Some?
    ensures r.Some? ==> PyInt(PredictionField(reply.json)) == Some(r.value.prediction)
    ensures r.Some? ==> PyInt(actual) == Some(r.value.actual)
  {
    match reply
    case PostFailed => None
    case Body(json) =>
      var prediction := PredictionField(json);
      if prediction == Null then None
      else
        match (PyInt(prediction), PyInt(actual))
        case (Some(p), Some(a)) => Some(LogRecord(p, a))
        case _ => None
  }

  /** The `try` block of lines 49-65 for one row: the record to keep, or
      `None` for an error. */
  method HandleReply(actualLabel: Value, reply: Reply) returns (record: Option<LogRecord>)
    ensures record == RowOutcome(actualLabel, reply)
    ensures record.Some? <==>
      reply.Body? && PredictionField(reply.json) != Null &&
      PyInt(PredictionField(reply.json)).Some? && PyInt(actualLabel).Some?
    ensures record.Some? ==>
      record.value == LogRecord(PyInt(PredictionField(reply.json)).value, PyInt(actualLabel).value)
  {
    match reply
    case PostFailed =>
      record := None;
    case Body(json) =>
      var prediction := PredictionField(json);
      if prediction != Null {
        var p, a := PyInt(prediction), PyInt(actualLabel);
        if p.Some? && a.Some? {
          record := Some(LogRecord(p.value, a.value));
        } else {
          record := None;
        }
      } else {
        record := None;
      }
  }

  /** Lines 36-65 for one row: build `input_data`, send it, and keep the
      record the reply yields, if any. */
  method ReplayRow(row: Row, hasType: bool, featureNames: seq<string>, reply: Reply)
    returns (record: Option<LogRecord>, ghost request: Dict)
    requires TargetColumn in row && (hasType ==> TypeColumn in row)
    ensures request == InputData(row, hasType, featureNames)
    ensures record == RowOutcome(row[TargetColumn], reply)
  {
    var actualLabel := row[TargetColumn];
    var inputData := BuildInput(row, hasType, featureNames);
    request := inputData;
    record := HandleReply(actualLabel, reply);
  }

  /** The records among per-row outcomes, in order. */
  function Somes(os: seq<Option<LogRecord>>): seq<LogRecord>
    decreases |os|
  {
    if os == [] then []
    else
      var n := |os| - 1;
      Somes(os[..n]) + (match os[n] case Some(r) => [r] case None => [])
  }

  lemma {:induction false} SomesAppend(o1: seq<Option<LogRecord>>, o2: seq<Option<LogRecord>>)
    ensures Somes(o1 + o2) == Somes(o1) + Somes(o2)
    decreases |o2|
  {
    if o2 == [] {
      assert o1 + o2 == o1;
    } else {
      var n := |o2| - 1;
      assert (o1 + o2)[..|o1 + o2| - 1] == o1 + o2[..n];
      SomesAppend(o1, o2[..n]);
    }
  }

  /** The outcome of every row. */
  function Outcomes(actuals: seq<Value>, replies: seq<Reply>): (os: seq<Option<LogRecord>>)
    requires |actuals| == |replies|
    ensures |os| == |actuals|
  {
    seq(|actuals|, i requires 0 <= i < |actuals| => RowOutcome(actuals[i], replies[i]))
  }

  /** The records the loop collects, in row order. */
  function Logged(actuals: seq<Value>, replies: seq<Reply>): seq<LogRecord>
    requires |actuals| == |replies|
  {
    Somes(Outcomes(actuals, replies))
  }

  lemma LoggedAppend(a1: seq<Value>, r1: seq<Reply>, a2: seq<Value>, r2: seq<Reply>)
    requires |a1| == |r1| && |a2| == |r2|
    ensures Logged(a1 + a2, r1 + r2) == Logged(a1, r1) + Logged(a2, r2)
  {
    assert Outcomes(a1 + a2, r1 + r2) == Outcomes(a1, r1) + Outcomes(a2, r2);
    SomesAppend(Outcomes(a1, r1), Outcomes(a2, r2));
  }

  lemma LoggedStep(actuals: seq<Value>, replies: seq<Reply>, i: nat)
    requires |actuals| == |replies| && i < |actuals|
    ensures Logged(actuals[..i + 1], replies[..i + 1]) ==
      Logged(actuals[..i], replies[..i]) +
      (match RowOutcome(actuals[i], replies[i]) case Some(r) => [r] case None => [])
  {
    var os := Outcomes(actuals[..i + 1], replies[..i + 1]);
    assert os[..i] == Outcomes(actuals[..i], replies[..i]);
    assert os[i] == RowOutcome(actuals[i], replies[i]);
  }


  /** `row[TARGET_COL]` of every row. */
  function Actuals(data: Dataset): (actuals: seq<Value>)
    requires WellFormed(data) && TargetColumn in data.columns
    ensures |actuals| == |data.rows|
  {
    seq(|data.rows|, i requires 0 <= i < |data.rows| => data.rows[i][TargetColumn])
  }

  /** Lines 31-65.  Reply `i` answers the payload sent for row `i`. */
  method ReplayRows(data: Dataset, featureNames: seq<string>, replies: seq<Reply>)
    returns (results: seq<LogRecord>, successCount: nat, errorCount: nat)
    requires WellFormed(data) && TargetColumn in data.columns && |replies| == |data.rows|
    ensures results == Logged(Actuals(data), replies)
    ensures |results| == successCount && successCount + errorCount == |data.rows|
  {
    var actuals := Actuals(data);
    var hasType := TypeColumn in data.columns;
    results, successCount, errorCount := [], 0, 0;
    for i := 0 to |data.rows|
      invariant results == Logged(actuals[..i], replies[..i])
      invariant |results| == successCount && successCount + errorCount == i
    {
      var row := data.rows[i];
      assert TargetColumn in row && (hasType ==> TypeColumn in row);
      var record, _ := ReplayRow(row, hasType, featureNames, replies[i]);
      assert row[TargetColumn] == actuals[i];
      LoggedStep(actuals, replies, i);
      match record
      case Some(r) =>
        results := results + [r];
        successCount := successCount + 1;
      case None =>
        errorCount := errorCount + 1;
    }
    assert actuals[..|data.rows|] == actuals && replies[..|data.rows|] == replies;
  }

  /** Every payload sent is `input_data` as described by `IsInputData`. */
  lemma RequestsAreInputData(data: Dataset, featureNames: seq<string>)
    requires WellFormed(data)
    ensures forall i :: 0 <= i < |data.rows| ==>
      IsInputData(data.rows[i], TypeColumn in data.columns, featureNames,
                  InputData(data.rows[i], TypeColumn in data.columns, featureNames))
  {
    forall i | 0 <= i < |data.rows|
      ensures IsInputData(data.rows[i], TypeColumn in data.columns, featureNames,
                          InputData(data.rows[i], TypeColumn in data.columns, featureNames))
    {
      InputDataIs(data.rows[i], TypeColumn in data.columns, featureNames);
    }
  }


  // ---------------------------------------------------------------------------
  // The production log file

  /** `json.dumps(entry) + "\n"`, as the reader decodes it again. */
  function Serialize(r: LogRecord): (line: Monitor.Line)
    ensures line.Object? && Monitor.IsValid(line.fields) && "actual" in line.fields
    ensures PyInt(line.fields["prediction"]) == Some(r.prediction)
    ensures PyInt(line.fields["actual"]) == Some(r.actual)
    ensures PyEq(line.fields["actual"], line.fields["prediction"]) <==> r.actual == r.prediction
  {
    Monitor.Object(map["prediction" := Int(r.prediction), "actual" := Int(r.actual)])
  }

  function LogLines(results: seq<LogRecord>): seq<Monitor.Line> {
    seq(|results|, i requires 0 <= i < |results| => Serialize(results[i]))
  }

  class LogFile {
    var lines: seq<Monitor.Line>

    constructor (initial: seq<Monitor.Line>)
      ensures lines == initial
    {
      lines := initial;
    }

    /** Opening in `"w"` mode: the previous contents are discarded. */
    method Truncate()
      modifies this
      ensures lines == []
    {
      lines := [];
    }

    method WriteLine(line: Monitor.Line)
      modifies this
      ensures lines == old(lines) + [line]
    {
      lines := lines + [line];
    }
  }

  /** Lines 68-70. */
  method WriteLog(log: LogFile, results: seq<LogRecord>)
    modifies log
    ensures log.lines == LogLines(results)
  {
    log.Truncate();
    for i := 0 to |results|
      invariant |log.lines| == i
      invariant forall j :: 0 <= j < i ==> log.lines[j] == Serialize(results[j])
    {
      log.WriteLine(Serialize(results[i]));
    }
  }

  datatype Day2Outcome = TargetMissing | Completed(successCount: nat, errorCount: nat)

  /** The script from line 25 on: the target check, the request loop, the log write. */
  method RunDay2(data: Dataset, featureNames: seq<string>, replies: seq<Reply>, log: LogFile)
    returns (outcome: Day2Outcome)
    requires WellFormed(data) && |replies| == |data.rows|
    modifies log
    ensures TargetColumn !in data.columns ==> outcome == TargetMissing && log.lines == old(log.lines)
    ensures TargetColumn in data.columns ==>
      outcome.Completed? && outcome.successCount + outcome.errorCount == |data.rows| &&
      log.lines == LogLines(Logged(Actuals(data), replies)) &&
      |log.lines| == outcome.successCount
  {
    if TargetColumn !in data.columns {
      return TargetMissing;
    }
    var results, successCount, errorCount := ReplayRows(data, featureNames, replies);
    WriteLog(log, results);
    outcome := Completed(successCount, errorCount);
  }

  // ---------------------------------------------------------------------------
  // Writer / reader round trip

  /** Independent count of the records whose prediction equals the actual label. */
  function CorrectCount(results: seq<LogRecord>): (n: nat)
    ensures n <= |results|
  {
    if results == [] then 0
    else (if results[0].prediction == results[0].actual then 1 else 0) + CorrectCount(results[1..])
  }

  lemma {:induction false} MatchCountOfRecords(ts: seq<Value>, ps: seq<Value>, results: seq<LogRecord>)
    requires |ts| == |ps| == |results|
    requires forall i :: 0 <= i < |results| ==>
      ts[i] == Int(results[i].actual) && ps[i] == Int(results[i].prediction)
    ensures Monitor.MatchCount(ts, ps) == CorrectCount(results)
  {
    if results != [] {
      MatchCountOfRecords(ts[1..], ps[1..], results[1..]);
    }
  }

  /** The log this script writes, read back by the monitor: every line
      decodes, every entry is valid, none is skipped, and the accuracy is the
      share of records whose prediction equals the actual label. */
  lemma WrittenLogReadsBack(results: seq<LogRecord>)
    ensures Monitor.AllParsed(LogLines(results))
    ensures Monitor.ValidOf(Monitor.Entries(LogLines(results))) == Monitor.Entries(LogLines(results))
    ensures |Monitor.Entries(LogLines(results))| == |results|
    ensures Monitor.SkippedOf(Monitor.Entries(LogLines(results))) == 0
    ensures Monitor.Evaluate(Monitor.Entries(LogLines(results))) ==
      if results == [] then Monitor.NoValid else Monitor.Ratio(CorrectCount(results), |results|)
  {
    var es := Monitor.Entries(LogLines(results));
    Monitor.ValidOfAllValid(es);
    Monitor.Partition(es);
    if results != [] {
      MatchCountOfRecords(Monitor.Actuals(es), Monitor.Predictions(es), results);
    }
  }

  /** Replaying day-2 traffic and then monitoring the log it leaves: the
      monitor sees `success_count` valid entries and skips none. */
  lemma ReplayThenMonitor(data: Dataset, replies: seq<Reply>)
    requires WellFormed(data) && TargetColumn in data.columns && |replies| == |data.rows|
    ensures var lines := LogLines(Logged(Actuals(data), replies));
      Monitor.AllParsed(lines) &&
      |Monitor.ValidOf(Monitor.Entries(lines))| == |Logged(Actuals(data), replies)| &&
      Monitor.SkippedOf(Monitor.Entries(lines)) == 0
  {
    WrittenLogReadsBack(Logged(Actuals(data), replies));
  }
}
