/** The prediction endpoint: checks the payload for `Type`, replaces the raw
    `Type` column by its one-hot encoding, zero-fills the feature columns the
    payload lacks, projects onto the training feature list, and asks the model.
    Every exception becomes an error response. */
module InferenceApi {
  import opened PyValues

  const MissingTypeMessage := "Missing 'Type' column in input"

  /** Stand-ins for the texts of exceptions raised by pandas (a width that does
      not match the column names) and by `int(...)`. */
  const ShapeMismatchMessage := "Shape of passed values does not match the columns"
  const IntConversionMessage := "invalid value for int()"

  /** The fitted one-hot encoder: `transform` of a `Type` value (a row of
      cells, or the text of the exception it raised) and
      `get_feature_names_out(["Type"])`. */
  datatype Encoder = Encoder(transform: Value -> Result<seq<Value>, string>, namesOut: seq<string>)

  /** The fitted classifier: `model.predict(X)[0]` for the one-row frame `X`,
      or the text of the exception it raised. */
  datatype Classifier = Classifier(predict: Dict -> Result<Value, string>)

  /** The JSON object returned: `{"prediction": classLabel}` or `{"error": message}`. */
  datatype Response = Prediction(classLabel: int) | Error(message: string)

  // ---------------------------------------------------------------------------
  // Start-up

  datatype Artifact = ModelFile | EncoderFile | FeatureNamesFile

  /** `required_files`, in the order they are checked. */
  const RequiredFiles: seq<Artifact> := [ModelFile, EncoderFile, FeatureNamesFile]

  datatype StartupError = ConfigMissing | ArtifactMissing(file: Artifact)

  /** Lines 13-29: the config file must exist, then every required artifact;
      the first one found missing is the one reported. */
  method Startup(configExists: bool, present: set<Artifact>) returns (err: Option<StartupError>)
    ensures err == None <==> configExists && forall a :: a in RequiredFiles ==> a in present
    ensures err == Some(ConfigMissing) <==> !configExists
    ensures err.Some? && err.value.ArtifactMissing? ==>
      configExists && err.value.file !in present &&
      exists i :: (0 <= i < |RequiredFiles| && RequiredFiles[i] == err.value.file &&
                   forall j :: 0 <= j < i ==> RequiredFiles[j] in present)
  {
    if !configExists {
      return Some(ConfigMissing);
    }
    for i := 0 to |RequiredFiles|
      invariant forall j :: 0 <= j < i ==> RequiredFiles[j] in present
    {
      if RequiredFiles[i] !in present {
        return Some(ArtifactMissing(RequiredFiles[i]));
      }
    }
    return None;
  }

  // ---------------------------------------------------------------------------
  // Column bookkeeping on a one-row frame (a `Dict` of columns, in order)

  /** `data.drop(columns=["Type"], errors="ignore")`. */
  function DropType(d: Dict): (r: Dict)
    ensures forall f :: f in r <==> f in d && f.key != TypeColumn
  {
    if d == [] then []
    else
      var rest := DropType(d[1..]);
      if d[0].key == TypeColumn then rest else [d[0]] + rest
  }

  /** Dropping `Type` leaves only keys the payload had, never `Type`. */
  lemma DropTypeKeys(d: Dict)
    ensures forall k :: k in Keys(DropType(d)) ==> k in Keys(d) && k != TypeColumn
  {
    var r := DropType(d);
    forall k | k in Keys(r) ensures k in Keys(d) && k != TypeColumn {
      var i :| 0 <= i < |r| && Keys(r)[i] == k;
      assert r[i] in r;
      var j :| 0 <= j < |d| && d[j] == r[i];
      assert Keys(d)[j] == k;
    }
  }

  /** Dropping `Type` keeps distinct keys distinct. */
  lemma {:induction false} DropTypeDistinct(d: Dict)
    requires Distinct(Keys(d))
    ensures Distinct(Keys(DropType(d)))
  {
    if d != [] {
      var tail := d[1..];
      HeadKeyNotInTail(d);
      DropTypeDistinct(tail);
      if d[0].key != TypeColumn {
        var rest := DropType(tail);
        DropTypeKeys(tail);
        assert DropType(d) == [d[0]] + rest;
        KeysAppend([d[0]], rest);
        DistinctAppend([d[0].key], Keys(rest));
      }
    }
  }

  /** The encoded frame: column `namesOut[j]` holds `cells[j]`. */
  function Zip(names: seq<string>, cells: seq<Value>): (r: Dict)
    requires |names| == |cells|
    ensures Keys(r) == names
  {
    seq(|names|, i requires 0 <= i < |names| => Field(names[i], cells[i]))
  }

  /** Lines 50-61: the frame `X` before the fill loop.  The payload's columns
      other than `Type` come first, in payload order, then the encoded ones. */
  function Combined(payload: Dict, enc: Encoder): (r: Result<Dict, string>)
    requires TypeColumn in Keys(payload)
    ensures r.Ok? <==> (enc.transform(Get(payload, TypeColumn)).Ok? &&
                        |enc.transform(Get(payload, TypeColumn)).value| == |enc.namesOut|)
    ensures r.Ok? ==>
      var n := |r.value| - |enc.namesOut|;
      0 <= n && Keys(r.value)[n..] == enc.namesOut &&
      TypeColumn !in Keys(r.value)[..n] && r.value[..n] == DropType(payload)
    ensures r.Ok? ==>
      (|r.value| == |DropType(payload)| + |enc.namesOut| &&
       forall j :: 0 <= j < |enc.namesOut| ==>
         r.value[|DropType(payload)| + j] == Field(enc.namesOut[j], enc.transform(Get(payload, TypeColumn)).value[j]))
  {
    match enc.transform(Get(payload, TypeColumn))
    case Err(m) => Err(m)
    case Ok(cells) =>
      if |cells| != |enc.namesOut| then Err(ShapeMismatchMessage)
      else
        var x := DropType(payload) + Zip(enc.namesOut, cells);
        assert x[..|DropType(payload)|] == DropType(payload);
        assert Keys(x)[|DropType(payload)|..] == Keys(Zip(enc.namesOut, cells));
        Ok(x)
  }

  /** The fill loop of lines 64-66 over the first names: every absent feature
      column is appended with the value 0. */
  function Filled(x: Dict, names: seq<string>): (y: Dict)
    ensures |x| <= |y| && y[..|x|] == x
    ensures forall n :: n in names ==> n in Keys(y)
    ensures forall j :: |x| <= j < |y| ==>
      y[j].value == Int(0) && y[j].key in names && y[j].key !in Keys(x)
    ensures Distinct(Keys(x)) ==> Distinct(Keys(y))
    decreases |names|
  {
    if names == [] then x
    else
      var y := Filled(x, names[..|names| - 1]);
      var n := names[|names| - 1];
      assert forall m :: m in names ==> m in names[..|names| - 1] || m == n;
      if n in Keys(y) then y
      else
        assert Keys(y + [Field(n, Int(0))]) == Keys(y) + [n];
        assert forall k :: k in Keys(x) ==> k in Keys(y) by {
          forall k | k in Keys(x) ensures k in Keys(y) {
            var i :| 0 <= i < |x| && Keys(x)[i] == k;
            assert y[i] == x[i];
          }
        }
        y + [Field(n, Int(0))]
  }

  /** Lines 64-66 as the source runs them: a loop that adds columns to `X`. */
  method FillMissing(x: Dict, featureNames: seq<string>) returns (y: Dict)
    ensures y == Filled(x, featureNames)
  {
    y := x;
    for i := 0 to |featureNames|
      invariant y == Filled(x, featureNames[..i])
    {
      assert featureNames[..i + 1][..i] == featureNames[..i];
      var col := featureNames[i];
      if col !in Keys(y) {
        y := y + [Field(col, Int(0))];
      }
    }
    assert featureNames[..|featureNames|] == featureNames;
  }

  /** `X[name]` part of a selection: every column labelled `name`, in order. */
  function ColumnsNamed(x: Dict, name: string): (r: Dict)
    ensures forall j :: 0 <= j < |r| ==> r[j].key == name
  {
    if x == [] then []
    else (if x[0].key == name then [x[0]] else []) + ColumnsNamed(x[1..], name)
  }

  /** `X[feature_names]` (line 68); pandas raises `KeyError` for a missing
      label, which the fill loop rules out. */
  function Project(x: Dict, names: seq<string>): (r: Dict)
    requires forall n :: n in names ==> n in Keys(x)
    ensures forall j :: 0 <= j < |r| ==> r[j].key in names
  {
    if names == [] then []
    else
      var head := ColumnsNamed(x, names[0]);
      var rest := Project(x, names[1..]);
      assert forall j :: 0 <= j < |rest| ==> rest[j].key in names[1..];
      head + rest
  }

  /** Lines 43-68: the frame handed to the model, or the exception raised on the way. */
  function ModelInput(payload: Dict, enc: Encoder, featureNames: seq<string>): (r: Result<Dict, string>)
    requires TypeColumn in Keys(payload)
    ensures r.Ok? <==> Combined(payload, enc).Ok?
    ensures r.Err? ==> r.error == Combined(payload, enc).error
    ensures r.Ok? ==> forall j :: 0 <= j < |r.value| ==> r.value[j].key in featureNames
  {
    match Combined(payload, enc)
    case Err(m) => Err(m)
    case Ok(x) => Ok(Project(Filled(x, featureNames), featureNames))
  }

  /** The whole handler: lines 41-75. */
  function Respond(payload: Dict, enc: Encoder, model: Classifier, featureNames: seq<string>): (r: Response)
    ensures r.Prediction? ==>
      TypeColumn in Keys(payload) && ModelInput(payload, enc, featureNames).Ok? &&
      model.predict(ModelInput(payload, enc, featureNames).value).Ok? &&
      PyInt(model.predict(ModelInput(payload, enc, featureNames).value).value) == Some(r.classLabel)
  {
    if TypeColumn !in Keys(payload) then Error(MissingTypeMessage)
    else
      match ModelInput(payload, enc, featureNames)
      case Err(m) => Error(m)
      case Ok(x) =>
        match model.predict(x)
        case Err(m) => Error(m)
        case Ok(v) =>
          match PyInt(v)
          case None => Error(IntConversionMessage)
          case Some(c) => Prediction(c)
  }

  /** `predict`, with the fill loop run as a loop. */
  method Predict(payload: Dict, enc: Encoder, model: Classifier, featureNames: seq<string>)
    returns (r: Response)
    ensures r == Respond(payload, enc, model, featureNames)
  {
    if TypeColumn !in Keys(payload) {
      return Error(MissingTypeMessage);
    }
    var combined := Combined(payload, enc);
    if combined.Err? {
      return Error(combined.error);
    }
    var x := FillMissing(combined.value, featureNames);
    x := Project(x, featureNames);
    var predicted := model.predict(x);
    if predicted.Err? {
      return Error(predicted.error);
    }
    var converted := PyInt(predicted.value);
    if converted.None? {
      return Error(IntConversionMessage);
    }
    return Prediction(converted.value);
  }

  // ---------------------------------------------------------------------------
  // Properties

  /** Without `Type` the handler answers with the fixed error whatever the
      encoder and model are: neither is consulted. */
  lemma MissingTypeRejected(payload: Dict, e1: Encoder, e2: Encoder, m1: Classifier, m2: Classifier,
                            featureNames: seq<string>)
    requires TypeColumn !in Keys(payload)
    ensures Respond(payload, e1, m1, featureNames) == Error(MissingTypeMessage)
    ensures Respond(payload, e1, m1, featureNames) == Respond(payload, e2, m2, featureNames)
  {
  }

  /** With `Type` present, the fixed missing-`Type` error can only come from a
      collaborator whose own exception text happens to be the same. */
  lemma TypePresentNotRejected(payload: Dict, enc: Encoder, model: Classifier, featureNames: seq<string>)
    requires TypeColumn in Keys(payload)
    requires forall v :: enc.transform(v).Err? ==> enc.transform(v).error != MissingTypeMessage
    requires forall x :: model.predict(x).Err? ==> model.predict(x).error != MissingTypeMessage
    ensures Respond(payload, enc, model, featureNames) != Error(MissingTypeMessage)
  {
  }

  /** Lines 70-75: an exception raised by the encoder or the model comes back
      as the error text; a prediction is returned only when the model answered
      and its answer converts to an integer. */
  lemma ExceptionsBecomeErrors(payload: Dict, enc: Encoder, model: Classifier, featureNames: seq<string>)
    requires TypeColumn in Keys(payload)
    ensures enc.transform(Get(payload, TypeColumn)).Err? ==>
      Respond(payload, enc, model, featureNames) == Error(enc.transform(Get(payload, TypeColumn)).error)
    ensures Respond(payload, enc, model, featureNames).Prediction? <==>
      (ModelInput(payload, enc, featureNames).Ok? &&
       model.predict(ModelInput(payload, enc, featureNames).value).Ok? &&
       PyInt(model.predict(ModelInput(payload, enc, featureNames).value).value).Some?)
    ensures (ModelInput(payload, enc, featureNames).Ok? &&
             model.predict(ModelInput(payload, enc, featureNames).value).Err?) ==>
      Respond(payload, enc, model, featureNames) ==
        Error(model.predict(ModelInput(payload, enc, featureNames).value).error)
  {
  }

  lemma {:induction false} ColumnsNamedOfDistinct(x: Dict, i: nat)
    requires Distinct(Keys(x)) && i < |x|
    ensures ColumnsNamed(x, x[i].key) == [x[i]]
  {
    var n := x[i].key;
    assert Keys(x[1..]) == Keys(x)[1..];
    if i == 0 {
      ColumnsNamedAbsent(x[1..], n);
    } else {
      assert Keys(x)[0] != Keys(x)[i];
      ColumnsNamedOfDistinct(x[1..], i - 1);
    }
  }

  lemma {:induction false} ColumnsNamedAbsent(x: Dict, n: string)
    requires n !in Keys(x)
    ensures ColumnsNamed(x, n) == []
  {
    if x != [] {
      assert Keys(x[1..]) == Keys(x)[1..];
      ColumnsNamedAbsent(x[1..], n);
    }
  }

  /** On a frame with distinct column names, the selection has exactly the
      requested columns, in the requested order. */
  lemma ProjectOfDistinct(x: Dict, names: seq<string>)
    requires Distinct(Keys(x))
    requires forall n :: n in names ==> n in Keys(x)
    ensures |Project(x, names)| == |names|
    ensures forall i :: 0 <= i < |names| ==> Project(x, names)[i] == Field(names[i], Get(x, names[i]))
    ensures Keys(Project(x, names)) == names
  {
    ProjectFields(x, names);
    assert Keys(Project(x, names)) == names;
  }

  lemma {:induction false} ProjectFields(x: Dict, names: seq<string>)
    requires Distinct(Keys(x))
    requires forall n :: n in names ==> n in Keys(x)
    ensures |Project(x, names)| == |names|
    ensures forall i :: 0 <= i < |names| ==> Project(x, names)[i] == Field(names[i], Get(x, names[i]))
  {
    ProjectLength(x, names);
    forall i | 0 <= i < |names|
      ensures Project(x, names)[i] == Field(names[i], Get(x, names[i]))
    {
      ProjectAt(x, names, i);
    }
  }

  lemma {:induction false} ProjectLength(x: Dict, names: seq<string>)
    requires Distinct(Keys(x))
    requires forall n :: n in names ==> n in Keys(x)
    ensures |Project(x, names)| == |names|
  {
    if names != [] {
      assert forall m :: m in names[1..] ==> m in names;
      ProjectHead(x, names);
      ProjectLength(x, names[1..]);
    }
  }

  lemma {:induction false} ProjectAt(x: Dict, names: seq<string>, i: nat)
    requires Distinct(Keys(x))
    requires forall n :: n in names ==> n in Keys(x)
    requires i < |names|
    ensures |Project(x, names)| == |names|
    ensures Project(x, names)[i] == Field(names[i], Get(x, names[i]))
  {
    ProjectLength(x, names);
    ProjectHead(x, names);
    if i > 0 {
      var tail := names[1..];
      assert forall m :: m in tail ==> m in names;
      ProjectAt(x, tail, i - 1);
      assert tail[i - 1] == names[i];
    }
  }

  /** On a frame with distinct names, the first requested label selects one column. */
  lemma ProjectHead(x: Dict, names: seq<string>)
    requires Distinct(Keys(x)) && names != []
    requires forall n :: n in names ==> n in Keys(x)
    ensures Project(x, names) == [Field(names[0], Get(x, names[0]))] + Project(x, names[1..])
  {
    assert names[0] in names;
    var j :| 0 <= j < |x| && Keys(x)[j] == names[0];
    ColumnsNamedOfDistinct(x, j);
    GetAt(x, j);
  }

  /** The combined frame has distinct column names when the payload's keys do
      not collide with the encoder's output names. */
  lemma CombinedDistinct(payload: Dict, enc: Encoder)
    requires NoCollision(payload, enc)
    requires Combined(payload, enc).Ok?
    ensures Distinct(Keys(Combined(payload, enc).value))
  {
    var cells := enc.transform(Get(payload, TypeColumn)).value;
    var d := DropType(payload);
    DropTypeKeys(payload);
    DropTypeDistinct(payload);
    KeysAppend(d, Zip(enc.namesOut, cells));
    DistinctAppend(Keys(d), enc.namesOut);
  }

  /** The payload is a dict and none of its keys is also an encoded column name. */
  predicate NoCollision(payload: Dict, enc: Encoder) {
    TypeColumn in Keys(payload) && Distinct(Keys(payload)) && Distinct(enc.namesOut) &&
    forall k :: k in Keys(payload) ==> k !in enc.namesOut
  }

  /** What the fill loop leaves before the projection. */
  function FilledFrame(payload: Dict, enc: Encoder, featureNames: seq<string>): Dict
    requires TypeColumn in Keys(payload) && Combined(payload, enc).Ok?
  {
    Filled(Combined(payload, enc).value, featureNames)
  }

  lemma FilledFrameSelected(payload: Dict, enc: Encoder, featureNames: seq<string>)
    requires NoCollision(payload, enc) && Combined(payload, enc).Ok?
    ensures ModelInput(payload, enc, featureNames).Ok?
    ensures var x := ModelInput(payload, enc, featureNames).value;
      var y := FilledFrame(payload, enc, featureNames);
      Distinct(Keys(y)) && Keys(x) == featureNames &&
      forall i :: 0 <= i < |featureNames| ==> x[i] == Field(featureNames[i], Get(y, featureNames[i]))
  {
    CombinedDistinct(payload, enc);
    ProjectOfDistinct(FilledFrame(payload, enc, featureNames), featureNames);
  }

  /** A column the frame had before the fill loop keeps its value. */
  lemma GetKeptByFill(x0: Dict, names: seq<string>, q: nat)
    requires Distinct(Keys(x0)) && q < |x0|
    ensures Get(Filled(x0, names), x0[q].key) == x0[q].value
  {
    var y := Filled(x0, names);
    assert y[q] == x0[q];
    GetAt(y, q);
  }

  /** A feature column the frame lacked before the fill loop is 0. */
  lemma GetAddedByFill(x0: Dict, names: seq<string>, k: string)
    requires Distinct(Keys(x0)) && k in names && k !in Keys(x0)
    ensures Get(Filled(x0, names), k) == Int(0)
  {
    var y := Filled(x0, names);
    assert forall q :: 0 <= q < |x0| ==> y[q] == x0[q] && Keys(x0)[q] != k;
    var q :| 0 <= q < |y| && Keys(y)[q] == k;
    GetAt(y, q);
  }

  lemma EncodedCellSelected(payload: Dict, enc: Encoder, featureNames: seq<string>, i: nat, j: nat)
    requires NoCollision(payload, enc) && Combined(payload, enc).Ok?
    requires i < |featureNames| && j < |enc.namesOut| && enc.namesOut[j] == featureNames[i]
    ensures ModelInput(payload, enc, featureNames).Ok?
    ensures |ModelInput(payload, enc, featureNames).value| == |featureNames|
    ensures ModelInput(payload, enc, featureNames).value[i].value ==
      enc.transform(Get(payload, TypeColumn)).value[j]
  {
    FilledFrameSelected(payload, enc, featureNames);
    CombinedDistinct(payload, enc);
    var x0 := Combined(payload, enc).value;
    var q := |DropType(payload)| + j;
    var cell := enc.transform(Get(payload, TypeColumn)).value[j];
    assert x0[q] == Field(featureNames[i], cell);
    GetKeptByFill(x0, featureNames, q);
    assert Get(FilledFrame(payload, enc, featureNames), featureNames[i]) == cell;
  }

  lemma PayloadValueSelected(payload: Dict, enc: Encoder, featureNames: seq<string>, i: nat)
    requires NoCollision(payload, enc) && Combined(payload, enc).Ok?
    requires i < |featureNames| && featureNames[i] != TypeColumn && featureNames[i] in Keys(payload)
    ensures ModelInput(payload, enc, featureNames).Ok?
    ensures |ModelInput(payload, enc, featureNames).value| == |featureNames|
    ensures ModelInput(payload, enc, featureNames).value[i].value == Get(payload, featureNames[i])
  {
    FilledFrameSelected(payload, enc, featureNames);
    CombinedDistinct(payload, enc);
    var k := featureNames[i];
    var q := PayloadColumnKept(payload, enc, k);
    GetKeptByFill(Combined(payload, enc).value, featureNames, q);
    assert Get(FilledFrame(payload, enc, featureNames), k) == Get(payload, k);
  }

  /** A payload column other than `Type` is a column of the combined frame,
      with the payload's value. */
  lemma PayloadColumnKept(payload: Dict, enc: Encoder, k: string) returns (q: nat)
    requires TypeColumn in Keys(payload) && Distinct(Keys(payload)) && Combined(payload, enc).Ok?
    requires k in Keys(payload) && k != TypeColumn
    ensures q < |Combined(payload, enc).value|
    ensures Combined(payload, enc).value[q] == Field(k, Get(payload, k))
  {
    var d := DropType(payload);
    var p :| 0 <= p < |payload| && Keys(payload)[p] == k;
    GetAt(payload, p);
    assert payload[p] in d;
    q :| 0 <= q < |d| && d[q] == payload[p];
    var x0 := Combined(payload, enc).value;
    assert x0[..|d|] == d;
    assert x0[q] == x0[..|d|][q];
  }


  lemma AbsentFeatureZero(payload: Dict, enc: Encoder, featureNames: seq<string>, i: nat)
    requires NoCollision(payload, enc) && Combined(payload, enc).Ok?
    requires i < |featureNames| && featureNames[i] !in enc.namesOut
    requires featureNames[i] == TypeColumn || featureNames[i] !in Keys(payload)
    ensures ModelInput(payload, enc, featureNames).Ok?
    ensures |ModelInput(payload, enc, featureNames).value| == |featureNames|
    ensures ModelInput(payload, enc, featureNames).value[i].value == Int(0)
  {
    FilledFrameSelected(payload, enc, featureNames);
    CombinedDistinct(payload, enc);
    var cells := enc.transform(Get(payload, TypeColumn)).value;
    var d := DropType(payload);
    var x0 := Combined(payload, enc).value;
    KeysAppend(d, Zip(enc.namesOut, cells));
    assert featureNames[i] !in Keys(x0);
    GetAddedByFill(x0, featureNames, featureNames[i]);
  }

  /** Lines 57-68 together: when the payload's keys are distinct from the
      encoder's output names, the model receives exactly the columns
      `feature_names`, in order; each holds the encoded cell of that name, else
      the payload's own value (the raw `Type` never), else 0.  Every other
      payload key is gone. */
  lemma ModelInputColumns(payload: Dict, enc: Encoder, featureNames: seq<string>)
    requires NoCollision(payload, enc)
    requires ModelInput(payload, enc, featureNames).Ok?
    ensures enc.transform(Get(payload, TypeColumn)).Ok?
    ensures var x := ModelInput(payload, enc, featureNames).value;
      var cells := enc.transform(Get(payload, TypeColumn)).value;
      Keys(x) == featureNames &&
      |cells| == |enc.namesOut| &&
      (forall i, j :: 0 <= i < |x| && 0 <= j < |cells| && enc.namesOut[j] == featureNames[i] ==>
         x[i].value == cells[j]) &&
      (forall i :: (0 <= i < |x| && featureNames[i] !in enc.namesOut &&
                    featureNames[i] != TypeColumn && featureNames[i] in Keys(payload)) ==>
         x[i].value == Get(payload, featureNames[i])) &&
      (forall i :: (0 <= i < |x| && featureNames[i] !in enc.namesOut &&
                    (featureNames[i] == TypeColumn || featureNames[i] !in Keys(payload))) ==>
         x[i].value == Int(0))
  {
    FilledFrameSelected(payload, enc, featureNames);
    var x := ModelInput(payload, enc, featureNames).value;
    var cells := enc.transform(Get(payload, TypeColumn)).value;
    forall i, j | 0 <= i < |x| && 0 <= j < |cells| && enc.namesOut[j] == featureNames[i]
      ensures x[i].value == cells[j]
    {
      EncodedCellSelected(payload, enc, featureNames, i, j);
    }
    forall i | (0 <= i < |x| && featureNames[i] !in enc.namesOut &&
                featureNames[i] != TypeColumn && featureNames[i] in Keys(payload))
      ensures x[i].value == Get(payload, featureNames[i])
    {
      PayloadValueSelected(payload, enc, featureNames, i);
    }
    forall i | (0 <= i < |x| && featureNames[i] !in enc.namesOut &&
                (featureNames[i] == TypeColumn || featureNames[i] !in Keys(payload)))
      ensures x[i].value == Int(0)
    {
      AbsentFeatureZero(payload, enc, featureNames, i);
    }
  }
}
