/** The production monitor: reads the prediction log line by line, sorts every
    entry into "valid" (it has a `prediction` key) or "skipped", and reports
    accuracy over the valid entries, guarding the empty case. */
module Monitor {
  import opened PyValues

  /** One decoded log entry: a JSON object. */
  type Entry = map<string, Value>

  /** One line of the log as `json.loads` sees it. */
  datatype Line = Unparsable | Object(fields: Entry)

  predicate AllParsed(lines: seq<Line>) {
    forall i :: 0 <= i < |lines| ==> lines[i].Object?
  }

  function Entries(lines: seq<Line>): seq<Entry>
    requires AllParsed(lines)
  {
    seq(|lines|, i requires 0 <= i < |lines| => lines[i].fields)
  }

  /** The classification test of the read loop; `actual` is not looked at. */
  predicate IsValid(e: Entry) {
    "prediction" in e
  }

  /** The valid entries, in log order. */
  function ValidOf(es: seq<Entry>): (v: seq<Entry>)
    ensures forall i :: 0 <= i < |v| ==> IsValid(v[i])
    decreases |es|
  {
    if es == [] then []
    else ValidOf(es[..|es| - 1]) + (if IsValid(es[|es| - 1]) then [es[|es| - 1]] else [])
  }

  /** The number of skipped entries. */
  function SkippedOf(es: seq<Entry>): (n: nat)
    ensures n <= |es|
    ensures n == 0 <==> forall i :: 0 <= i < |es| ==> IsValid(es[i])
    decreases |es|
  {
    if es == [] then 0
    else SkippedOf(es[..|es| - 1]) + (if IsValid(es[|es| - 1]) then 0 else 1)
  }

  lemma {:induction false} Partition(es: seq<Entry>)
    ensures |ValidOf(es)| + SkippedOf(es) == |es|
    decreases |es|
  {
    if es != [] {
      Partition(es[..|es| - 1]);
    }
  }

  lemma {:induction false} ValidIff(es: seq<Entry>, e: Entry)
    ensures e in ValidOf(es) <==> e in es && IsValid(e)
    decreases |es|
  {
    if es != [] {
      var init := es[..|es| - 1];
      ValidIff(init, e);
      assert es == init + [es[|es| - 1]];
    }
  }

  lemma {:induction false} ValidOfAppend(a: seq<Entry>, b: seq<Entry>)
    ensures ValidOf(a + b) == ValidOf(a) + ValidOf(b)
    ensures SkippedOf(a + b) == SkippedOf(a) + SkippedOf(b)
    decreases |b|
  {
    if b == [] {
      assert a + b == a;
    } else {
      var init := b[..|b| - 1];
      assert (a + b)[..|a + b| - 1] == a + init;
      ValidOfAppend(a, init);
    }
  }

  lemma SkippedEntryIgnored(a: seq<Entry>, e: Entry, b: seq<Entry>)
    requires !IsValid(e)
    ensures ValidOf(a + [e] + b) == ValidOf(a + b)
    ensures SkippedOf(a + [e] + b) == SkippedOf(a + b) + 1
  {
    ValidOfAppend(a, [e]);
    ValidOfAppend(a + [e], b);
    ValidOfAppend(a, b);
    assert ValidOf([e]) == ValidOf([]) + [] by { assert [e][..0] == []; }
    assert SkippedOf([e]) == 1 by { assert [e][..0] == []; }
  }

  /** A log whose every entry is valid loses nothing to the filter. */
  lemma {:induction false} ValidOfAllValid(es: seq<Entry>)
    requires forall i :: 0 <= i < |es| ==> IsValid(es[i])
    ensures ValidOf(es) == es
    decreases |es|
  {
    if es != [] {
      ValidOfAllValid(es[..|es| - 1]);
      assert es == es[..|es| - 1] + [es[|es| - 1]];
    }
  }

  datatype ReadResult = Read(valid: seq<Entry>, skipped: nat) | DecodeError(line: nat)

  /** The read loop: `json.loads` each line, append valid entries, count the
      rest.  A line that does not decode aborts the whole read. */
  method ReadLog(lines: seq<Line>) returns (r: ReadResult)
    ensures r.DecodeError? <==> !AllParsed(lines)
    ensures r.DecodeError? ==>
      r.line < |lines| && lines[r.line].Unparsable? && AllParsed(lines[..r.line])
    ensures r.Read? ==>
      AllParsed(lines) &&
      r.valid == ValidOf(Entries(lines)) && r.skipped == SkippedOf(Entries(lines)) &&
      |r.valid| + r.skipped == |lines|
  {
    var valid: seq<Entry> := [];
    var skipped: nat := 0;
    for i := 0 to |lines|
      invariant AllParsed(lines[..i])
      invariant valid == ValidOf(Entries(lines[..i]))
      invariant skipped == SkippedOf(Entries(lines[..i]))
    {
      match lines[i]
      case Unparsable =>
        return DecodeError(i);
      case Object(entry) =>
        assert Entries(lines[..i + 1])[..i] == Entries(lines[..i]);
        if "prediction" in entry {
          valid := valid + [entry];
        } else {
          skipped := skipped + 1;
        }
    }
    assert lines[..|lines|] == lines;
    Partition(Entries(lines));
    return Read(valid, skipped);
  }

  // ---------------------------------------------------------------------------
  // Accuracy

  /** The outcome of the accuracy step; `Ratio(m, t)` is the exact value m/t. */
  datatype Evaluation = NoValid | ActualKeyError | Ratio(matches: nat, total: nat)

  /** Python's `sum(t == p for t, p in zip(ts, ps))`. */
  function MatchCount(ts: seq<Value>, ps: seq<Value>): (n: nat)
    requires |ts| == |ps|
    ensures n <= |ts|
  {
    if ts == [] then 0
    else (if PyEq(ts[0], ps[0]) then 1 else 0) + MatchCount(ts[1..], ps[1..])
  }

  lemma {:induction false} AllMatchIff(ts: seq<Value>, ps: seq<Value>)
    requires |ts| == |ps|
    ensures MatchCount(ts, ps) == |ts| <==> forall i :: 0 <= i < |ts| ==> PyEq(ts[i], ps[i])
  {
    if ts != [] {
      AllMatchIff(ts[1..], ps[1..]);
      if MatchCount(ts, ps) == |ts| {
        forall i | 0 <= i < |ts| ensures PyEq(ts[i], ps[i]) {
          if i > 0 { assert ts[1..][i - 1] == ts[i] && ps[1..][i - 1] == ps[i]; }
        }
      }
    }
  }

  lemma {:induction false} NoMatchIff(ts: seq<Value>, ps: seq<Value>)
    requires |ts| == |ps|
    ensures MatchCount(ts, ps) == 0 <==> forall i :: 0 <= i < |ts| ==> !PyEq(ts[i], ps[i])
  {
    if ts != [] {
      NoMatchIff(ts[1..], ps[1..]);
      if MatchCount(ts, ps) == 0 {
        forall i | 0 <= i < |ts| ensures !PyEq(ts[i], ps[i]) {
          if i > 0 { assert ts[1..][i - 1] == ts[i] && ps[1..][i - 1] == ps[i]; }
        }
      }
    }
  }

  predicate AllValid(valid: seq<Entry>) {
    forall i :: 0 <= i < |valid| ==> IsValid(valid[i])
  }

  predicate AllHaveActual(valid: seq<Entry>) {
    forall i :: 0 <= i < |valid| ==> "actual" in valid[i]
  }

  /** `y_true` of line 57. */
  function Actuals(valid: seq<Entry>): (ys: seq<Value>)
    requires AllHaveActual(valid)
    ensures |ys| == |valid| && forall i :: 0 <= i < |valid| ==> ys[i] == valid[i]["actual"]
  {
    seq(|valid|, i requires 0 <= i < |valid| => valid[i]["actual"])
  }

  /** `y_pred` of line 58. */
  function Predictions(valid: seq<Entry>): (ys: seq<Value>)
    requires AllValid(valid)
    ensures |ys| == |valid| && forall i :: 0 <= i < |valid| ==> ys[i] == valid[i]["prediction"]
  {
    seq(|valid|, i requires 0 <= i < |valid| => valid[i]["prediction"])
  }

  /** Lines 54-60: no ratio for an empty valid list; otherwise `y_true` reads
      `actual` from every valid entry (a `KeyError` if one lacks it) and
      accuracy is matches over the number of valid entries. */
  function Evaluate(valid: seq<Entry>): (ev: Evaluation)
    requires AllValid(valid)
    ensures ev.NoValid? <==> valid == []
    ensures ev.ActualKeyError? <==> valid != [] && !AllHaveActual(valid)
    ensures ev.Ratio? ==> 0 < ev.total == |valid| && ev.matches <= ev.total
  {
    if |valid| == 0 then NoValid
    else if !AllHaveActual(valid) then ActualKeyError
    else Ratio(MatchCount(Actuals(valid), Predictions(valid)), |valid|)
  }

  /** Accuracy is 1 exactly when every valid entry's actual equals its prediction. */
  lemma PerfectAccuracyIff(valid: seq<Entry>)
    requires valid != [] && AllValid(valid) && AllHaveActual(valid)
    ensures Evaluate(valid).Ratio?
    ensures Evaluate(valid).matches == Evaluate(valid).total <==>
      forall i :: 0 <= i < |valid| ==> PyEq(valid[i]["actual"], valid[i]["prediction"])
  {
    var yTrue, yPred := Actuals(valid), Predictions(valid);
    AllMatchIff(yTrue, yPred);
    assert forall i :: 0 <= i < |valid| ==>
      yTrue[i] == valid[i]["actual"] && yPred[i] == valid[i]["prediction"];
  }

  /** Accuracy is 0 exactly when no valid entry's actual equals its prediction. */
  lemma ZeroAccuracyIff(valid: seq<Entry>)
    requires valid != [] && AllValid(valid) && AllHaveActual(valid)
    ensures Evaluate(valid).Ratio?
    ensures Evaluate(valid).matches == 0 <==>
      forall i :: 0 <= i < |valid| ==> !PyEq(valid[i]["actual"], valid[i]["prediction"])
  {
    var yTrue, yPred := Actuals(valid), Predictions(valid);
    NoMatchIff(yTrue, yPred);
    assert forall i :: 0 <= i < |valid| ==>
      yTrue[i] == valid[i]["actual"] && yPred[i] == valid[i]["prediction"];
  }

  /** The accuracy as a number: in [0, 1]. */
  function AccuracyOf(ev: Evaluation): (a: real)
    requires ev.Ratio? && ev.total > 0 && ev.matches <= ev.total
    ensures 0.0 <= a <= 1.0
  {
    ev.matches as real / ev.total as real
  }

  /** A skipped entry inserted anywhere in the log changes neither the valid
      list nor the accuracy. */
  lemma SkippedEntryKeepsAccuracy(a: seq<Line>, e: Entry, b: seq<Line>)
    requires AllParsed(a) && AllParsed(b) && !IsValid(e)
    ensures AllParsed(a + [Object(e)] + b) && AllParsed(a + b)
    ensures ValidOf(Entries(a + [Object(e)] + b)) == ValidOf(Entries(a + b))
    ensures Evaluate(ValidOf(Entries(a + [Object(e)] + b))) == Evaluate(ValidOf(Entries(a + b)))
  {
    EntriesAppend(a, [Object(e)]);
    EntriesAppend(a + [Object(e)], b);
    EntriesAppend(a, b);
    assert Entries([Object(e)]) == [e];
    SkippedEntryIgnored(Entries(a), e, Entries(b));
  }

  lemma EntriesAppend(a: seq<Line>, b: seq<Line>)
    requires AllParsed(a) && AllParsed(b)
    ensures AllParsed(a + b) && Entries(a + b) == Entries(a) + Entries(b)
  {
    assert forall i :: 0 <= i < |a + b| ==> (a + b)[i] == if i < |a| then a[i] else b[i - |a|];
  }

  // ---------------------------------------------------------------------------
  // The whole script

  /** Which files exist when the script starts. */
  datatype Environment = Environment(configExists: bool, featureNamesExists: bool, logExists: bool)

  datatype Fatal =
    | ConfigNotFound
    | FeatureNamesNotFound
    | LogNotFound
    | JsonDecodeError(line: nat)
    | MissingActual

  /** What a run ends with: an exception, the "No valid predictions found."
      message, or an accuracy (exact) and the skipped count. */
  datatype Report =
    | Aborted(reason: Fatal)
    | NoValidPredictions
    | Accuracy(matches: nat, total: nat, skipped: nat)

  method RunMonitor(env: Environment, lines: seq<Line>) returns (rep: Report)
    ensures rep == Aborted(ConfigNotFound) <==> !env.configExists
    ensures rep == Aborted(FeatureNamesNotFound) <==> env.configExists && !env.featureNamesExists
    ensures rep == Aborted(LogNotFound) <==>
      env.configExists && env.featureNamesExists && !env.logExists
    ensures rep.Aborted? && rep.reason.JsonDecodeError? ==>
      rep.reason.line < |lines| && lines[rep.reason.line].Unparsable? &&
      AllParsed(lines[..rep.reason.line])
    ensures env.configExists && env.featureNamesExists && env.logExists ==>
      (!AllParsed(lines) <==> rep.Aborted? && rep.reason.JsonDecodeError?)
    ensures rep == NoValidPredictions <==>
      env.configExists && env.featureNamesExists && env.logExists &&
      AllParsed(lines) && ValidOf(Entries(lines)) == []
    ensures rep == Aborted(MissingActual) <==>
      env.configExists && env.featureNamesExists && env.logExists && AllParsed(lines) &&
      ValidOf(Entries(lines)) != [] && !AllHaveActual(ValidOf(Entries(lines)))
    ensures rep.Accuracy? ==>
      env.configExists && env.featureNamesExists && env.logExists && AllParsed(lines) &&
      Evaluate(ValidOf(Entries(lines))) == Ratio(rep.matches, rep.total) &&
      0 < rep.total && rep.matches <= rep.total &&
      rep.skipped == SkippedOf(Entries(lines)) && rep.total + rep.skipped == |lines|
  {
    if !env.configExists {
      return Aborted(ConfigNotFound);
    }
    if !env.featureNamesExists {
      return Aborted(FeatureNamesNotFound);
    }
    if !env.logExists {
      return Aborted(LogNotFound);
    }
    var read := ReadLog(lines);
    match read
    case DecodeError(i) =>
      rep := Aborted(JsonDecodeError(i));
    case Read(valid, skipped) =>
      var ev := Evaluate(valid);
      match ev
      case NoValid =>
        rep := NoValidPredictions;
      case ActualKeyError =>
        rep := Aborted(MissingActual);
      case Ratio(m, t) =>
        rep := Accuracy(m, t, skipped);
  }

  /** A log whose two lines both hold a prediction, one of them correct,
      scores 1/2; an entry with a prediction but no actual is valid and makes
      the accuracy step raise. */
  lemma TwoEntryScenario(e1: Entry, e2: Entry, e3: Entry)
    requires e1 == map["prediction" := Int(1), "actual" := Int(1)]
    requires e2 == map["prediction" := Int(0), "actual" := Int(1)]
    requires e3 == map["prediction" := Int(1)]
    ensures Evaluate(ValidOf([e1, e2])) == Ratio(1, 2)
    ensures ValidOf([e1, e3]) == [e1, e3] && Evaluate([e1, e3]) == ActualKeyError
  {
    assert [e1, e2][..1] == [e1];
    assert [e1][..0] == [];
    assert ValidOf([e1]) == [e1];
    assert ValidOf([e1, e2]) == [e1, e2];
    assert [e1, e3][..1] == [e1];
    var yTrue, yPred := Actuals([e1, e2]), Predictions([e1, e2]);
    assert yTrue == [Int(1), Int(1)] && yPred == [Int(1), Int(0)];
    assert yTrue[1..] == [Int(1)] && yPred[1..] == [Int(0)];
    assert MatchCount(yTrue, yPred) == 1;
    assert "actual" !in [e1, e3][1];
  }
}
