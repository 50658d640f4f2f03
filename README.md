# Predictive-maintenance MLOps pipeline: verified model of its core logic

This project is a Dafny model of the four pieces of logic in a small manual MLOps
pipeline for predicting machine failure:

- **Production monitor** (`Monitor`, `monitor.dfy`). It reads the JSON-lines
  prediction log and sorts every entry into "valid" (the entry has a `prediction`
  key) or "skipped". It then reports the accuracy over the valid entries, which is
  the number of entries whose `actual` equals their `prediction` over the number
  of valid entries. When there are no valid entries it only reports "No valid
  predictions found.".
- **Day-2 traffic replayer** (`Day2Inference`, `day2.dfy`). For every row of the
  day-2 data it builds the request payload and reads the endpoint's reply. It
  keeps one `{"prediction", "actual"}` record per successful reply and counts
  successes and errors. Finally it overwrites the production log with the
  records. The lemmas connect this writer to the monitor: the log it writes reads
  back with nothing skipped.
- **Data versioning** (`DataPrep`, `dataprep.dfy`). It scans the processed-data
  directory for `v<N>_cleaned.csv` names and picks one past the largest version,
  or 2 when there is none. It writes the cleaned file under the new name and
  appends a block to the data manifest.
- **Prediction endpoint** (`InferenceApi`, `inference.dfy`). The start-up checks
  and the `predict` handler. The handler:
  - rejects a payload without `Type`;
  - replaces the raw `Type` column by the encoder's one-hot columns;
  - zero-fills the missing feature columns;
  - selects the training feature list;
  - asks the model;
  - turns every exception into an error response.

`PyValues` (`pyvalues.dfy`) holds the Python semantics the scripts rely on:

- JSON/pandas values;
- `==` across bool, int and float;
- `int(...)` on numbers and numeral strings;
- decimal formatting of integers;
- insertion-ordered dicts, which also serve as the columns of a one-row data
  frame.

Environment inputs become parameters:

- Whether each file exists.
- The directory listing.
- The log's lines, each either undecodable or a decoded JSON object.
- The HTTP replies.
- The time stamp text.
- The fitted encoder and classifier, as uninterpreted functions that return a
  value or an exception text.

Files that the scripts change become classes with `modifies` clauses:
`Day2Inference.LogFile`, `DataPrep.TextFile` and `DataPrep.Directory`.

Three behaviours of the scripts are easy to miss:

- The monitor does not skip a line that fails to decode, blank lines included.
  `json.loads` raises and the whole run stops.
- An entry is valid as soon as it has a `prediction` key. A valid entry without
  `actual` makes line 57 raise `KeyError`.
- When there are no valid entries the monitor prints only the one message.

## Model

| member | source | states |
|---|---|---|
| Monitor.ValidOf | src/monitor_production.py:44-49 | every entry kept by the read loop has a `prediction` key |
| Monitor.SkippedOf | src/monitor_production.py:44-49 | `skipped` is at most the number of entries, and zero iff every entry has a `prediction` key |
| Monitor.Partition | src/monitor_production.py:43-49 | every entry lands in exactly one bucket: valid count plus skipped count equals the number of entries |
| Monitor.ValidIff | src/monitor_production.py:46-49 | an entry is in `valid_preds` iff it is in the log and has a `prediction` key; `actual` plays no part |
| Monitor.ValidOfAppend | src/monitor_production.py:44-47 | the valid list and the skipped count of a concatenated log are those of the parts, concatenated or added, so log order is kept |
| Monitor.SkippedEntryIgnored | src/monitor_production.py:44-49 | inserting an entry without `prediction` anywhere leaves the valid list unchanged and adds one to the skipped count |
| Monitor.ValidOfAllValid | src/monitor_production.py:44-47 | a log of entries that all have `prediction` is kept whole and in order |
| Monitor.Actuals | src/monitor_production.py:57 | `y_true` has one element per valid entry: entry `i`'s `actual` |
| Monitor.Predictions | src/monitor_production.py:58 | `y_pred` has one element per valid entry: entry `i`'s `prediction` |
| Monitor.ReadLog | src/monitor_production.py:37-49 | the read aborts iff some line does not decode, and names the first such line; otherwise it returns exactly the valid entries in order and the skipped count, which sum to the number of lines |
| Monitor.MatchCount | src/monitor_production.py:60 | the number of positions where `actual == prediction` (Python equality) is at most the number of entries |
| Monitor.AllMatchIff | src/monitor_production.py:60 | the match count equals the length iff every position matches |
| Monitor.NoMatchIff | src/monitor_production.py:60 | the match count is zero iff no position matches |
| Monitor.Evaluate | src/monitor_production.py:54-60 | no ratio iff there are no valid entries; a `KeyError` iff some valid entry lacks `actual`; otherwise a ratio whose denominator is the number of valid entries (never zero) and whose numerator is at most that |
| Monitor.PerfectAccuracyIff | src/monitor_production.py:57-60 | accuracy is 1 iff every valid entry's `actual` equals its `prediction` |
| Monitor.ZeroAccuracyIff | src/monitor_production.py:57-60 | accuracy is 0 iff no valid entry's `actual` equals its `prediction` |
| Monitor.AccuracyOf | src/monitor_production.py:60 | the accuracy lies in [0, 1] |
| Monitor.SkippedEntryKeepsAccuracy | src/monitor_production.py:44-60 | a skipped line inserted anywhere in the log changes neither the valid list nor the accuracy |
| Monitor.RunMonitor | src/monitor_production.py:11-63 | a missing config, then a missing feature-name file, then a missing log abort in that order before anything is read, and each is reported only in its case; a line that does not decode aborts the run; "No valid predictions" is reported iff the log decodes and has no valid entry; otherwise the `actual` lookup raises iff some valid entry lacks `actual`, and else the accuracy is matches over the number of valid entries, and valid plus skipped equals the number of lines |
| Monitor.TwoEntryScenario | src/monitor_production.py:44-60 | two valid entries with one correct score 1/2; an entry with `prediction` but no `actual` is valid and makes the accuracy step raise |
| PyValues.PyEqIsEquivalence | src/monitor_production.py:60 | Python `==` on the modelled values is reflexive, symmetric and transitive |
| PyValues.PyEq | src/monitor_production.py:60 | `==` equates a number only with a number; any other value equals exactly itself; two ints are equal iff they are the same integer |
| PyValues.Truncate | src/run_day2_inference.py:57-58 | `int()` of a float truncates toward zero: the result is within one of the float, on the side of zero |
| PyValues.PyInt | src/run_day2_inference.py:57-58 | `int()` keeps an int, succeeds on every bool, int and float, and raises on `None` and on lists or objects |
| PyValues.PyIntReadsDecimalText | src/run_day2_inference.py:57-58 | `int()` of the decimal text of a natural number gives that number |
| PyValues.NatToString | src/data_prep.py:31 | the decimal text of a number is a non-empty run of digits without a leading zero |
| PyValues.DigitsRoundTrip | src/data_prep.py:24 | reading back the decimal text of a number gives the number |
| PyValues.Put | src/run_day2_inference.py:43-47 | `d[k] = v` keeps the keys distinct, overwrites an existing key in place or appends a new one, and leaves every other entry unchanged |
| PyValues.Get | src/inference.py:50 | `d[k]` returns the value of a field of `d` named `k` |
| Day2Inference.FeatureInputKeys | src/run_day2_inference.py:41-43 | after the feature loop, a key is present iff it is a feature name the row has, and each value is the row's value for that key |
| Day2Inference.InputDataIs | src/run_day2_inference.py:39-47 | `input_data` has each key once; a key is present iff it is a feature column the row has, or it is `Type` and the data has a `Type` column; every value is copied unchanged from the row |
| Day2Inference.FeatureInput | src/run_day2_inference.py:39-43 | the feature loop yields each key once and at most one key per feature name |
| Day2Inference.InputData | src/run_day2_inference.py:39-47 | `input_data` has each key once and at most one more key than there are features; when the data has `Type`, the row's `Type` value is sent under `Type`; without it, only the feature loop's keys are sent |
| Day2Inference.BuildInput | src/run_day2_inference.py:39-47 | the two loops build exactly `input_data` as `InputData` describes it, insertion order included |
| Day2Inference.RequestsAreInputData | src/run_day2_inference.py:35-50 | the payload sent for every row of a well-formed data frame has the `input_data` properties above |
| Day2Inference.HandleReply | src/run_day2_inference.py:49-65 | the `try` block keeps a record exactly when the reply is an object whose `prediction` is not `None` and both `int` conversions succeed, and the record holds those two integers |
| Day2Inference.RowOutcome | src/run_day2_inference.py:49-65 | a row yields a record iff the reply is an object whose `prediction` is not `None` and both `int` conversions succeed; the record holds `int(prediction)` and `int(actual_label)` |
| Day2Inference.ReplayRow | src/run_day2_inference.py:36-65 | for one row, the payload sent is `input_data` and the record kept is the one the reply yields against the row's target value |
| Day2Inference.SomesAppend | src/run_day2_inference.py:56-59 | collecting the records of two runs of outcomes gives the records of each run, concatenated |
| Day2Inference.LoggedAppend | src/run_day2_inference.py:35-65 | the records of a concatenation of rows are the records of the parts, concatenated, so row order is kept |
| Day2Inference.ReplayRows | src/run_day2_inference.py:31-65 | `results` holds, in row order, the record of every row whose reply yields one; `len(results) == success_count` and `success_count + error_count` equals the number of rows |
| Day2Inference.LogFile.Truncate | src/run_day2_inference.py:68 | opening in `"w"` mode discards the previous contents |
| Day2Inference.WriteLog | src/run_day2_inference.py:68-70 | the log holds exactly one line per result, in order, each the object `{"prediction", "actual"}` of that result |
| Day2Inference.Serialize | src/run_day2_inference.py:70 | a written record decodes to an object that has `prediction` and `actual`, `int` reads back both integers, and Python `==` between them holds iff the record is correct |
| Day2Inference.RunDay2 | src/run_day2_inference.py:25-70 | a missing target column stops the run with the log untouched; otherwise the log is replaced by the records, one line per success |
| Day2Inference.CorrectCount | src/monitor_production.py:60 | an independent count of the records whose prediction equals the actual label, at most the number of records |
| Day2Inference.MatchCountOfRecords | src/monitor_production.py:57-60 | the monitor's match count over the written records equals the count of correct records |
| Day2Inference.WrittenLogReadsBack | src/run_day2_inference.py:68-70 | the log this script writes decodes completely when read back, every entry is valid, none is skipped, and the accuracy is the share of correct records (no ratio when there are none) |
| Day2Inference.ReplayThenMonitor | src/run_day2_inference.py:31-70 | after a replay, the monitor finds `success_count` valid entries and skips none |
| DataPrep.DigitRun | src/data_prep.py:22 | `\d+` takes the whole leading run of digits and stops at the first non-digit |
| DataPrep.MatchesWithAnyTail | src/data_prep.py:22-24 | `v`, a run of digits, then anything that starts with `_cleaned.csv` matches, and the version is the digits' value |
| DataPrep.CleanedNameRoundTrip | src/data_prep.py:22-31 | matching the pattern against `f"v{n}_cleaned.csv"` gives back `n` |
| DataPrep.MatchVersion | src/data_prep.py:22-24 | a match means the name is `v`, a non-empty run of digits, then text that starts with `_cleaned.csv`, and the version is the digits' value |
| DataPrep.CleanedName | src/data_prep.py:31 | the new name is `v`, a non-empty run of digits, then `_cleaned.csv` |
| DataPrep.TrailingTextStillMatches | src/data_prep.py:21-24 | the match is not anchored at the end: `v3_cleaned.csv.bak` counts as version 3 |
| DataPrep.PrefixedNameIgnored | src/data_prep.py:21-24 | the match is anchored at the start: `data_v3_cleaned.csv` does not count |
| DataPrep.VersionNeedsDigits | src/data_prep.py:21-24 | `v_cleaned.csv` does not count: at least one digit is needed |
| DataPrep.VersionsOfMembers | src/data_prep.py:19-24 | a number is in `version_numbers` iff some directory name matches with that number |
| DataPrep.VersionsOf | src/data_prep.py:19-24 | `version_numbers` has at most one number per directory name |
| DataPrep.Max | src/data_prep.py:27 | `max` returns an element not smaller than any other |
| DataPrep.NextVersion | src/data_prep.py:26-30 | 2 when no version was found, otherwise one past an existing version; in both cases larger than every existing version |
| DataPrep.NextVersionDependsOnSet | src/data_prep.py:26-30 | the next version depends only on which versions occur |
| DataPrep.ListingOrderIrrelevant | src/data_prep.py:17-27 | the next version depends only on which names the directory holds, not on the listing order |
| DataPrep.CleanedNameFresh | src/data_prep.py:21-31 | the new file name is never one of the names already in the directory |
| DataPrep.ChooseCleanedFile | src/data_prep.py:17-31 | the loop collects the matched versions in listing order, picks the next version and names the file after it, and the name is fresh |
| DataPrep.ManifestBlockShape | src/data_prep.py:47-54 | the manifest block starts with `"\nVersion: " + cleaned_file + "\n"` and ends with a rule of 60 dashes and a newline |
| DataPrep.ManifestBlock | src/data_prep.py:47-54 | the block is the fixed text (154 characters) plus the file name, the time stamp and the raw-data path, and nothing else |
| DataPrep.AppendManifest | src/data_prep.py:44-54 | the manifest gains exactly the block at its end; its old contents stay a prefix |
| DataPrep.Directory.WriteFile | src/data_prep.py:41 | writing the cleaned file adds its name to the directory |
| DataPrep.PrepareData | src/data_prep.py:17-54 | the cleaned file gets a name not previously in the directory, the directory gains exactly that name, and the manifest gains exactly its block |
| InferenceApi.Startup | src/inference.py:13-29 | start-up succeeds iff the config and all three artifacts exist; the missing config is reported iff the config is missing, and otherwise the first missing artifact in the order model, encoder, feature names |
| InferenceApi.DropType | src/inference.py:58 | exactly the payload columns not named `Type` remain |
| InferenceApi.DropTypeKeys | src/inference.py:58 | every remaining name was a payload name and none is `Type` |
| InferenceApi.DropTypeDistinct | src/inference.py:58 | dropping `Type` keeps distinct names distinct |
| InferenceApi.Zip | src/inference.py:51-54 | the encoded frame's columns are the encoder's output names, in order |
| InferenceApi.Combined | src/inference.py:50-61 | the concatenation succeeds iff the encoder succeeds and returns one cell per output name; the remaining payload columns come first, in payload order and without `Type`, then the encoded columns, the `j`-th holding the encoder's `j`-th cell |
| InferenceApi.PayloadColumnKept | src/inference.py:57-61 | every payload column other than `Type` is a column of the combined frame with the payload's value |
| InferenceApi.Filled | src/inference.py:64-66 | the existing columns are kept unchanged at the front; afterwards every feature name is a column; every added column is a feature that was absent and holds 0 |
| InferenceApi.FillMissing | src/inference.py:64-66 | the fill loop computes exactly the filled frame |
| InferenceApi.ColumnsNamed | src/inference.py:68 | selecting one label yields only columns with that label |
| InferenceApi.Project | src/inference.py:68 | the selection holds only columns named in `feature_names` |
| InferenceApi.ColumnsNamedOfDistinct | src/inference.py:68 | in a frame with distinct names, selecting a present label yields exactly that column |
| InferenceApi.ColumnsNamedAbsent | src/inference.py:68 | selecting an absent label yields nothing |
| InferenceApi.ProjectHead | src/inference.py:68 | on a frame with distinct names, the first requested label selects exactly one column, holding the frame's value |
| InferenceApi.ProjectLength | src/inference.py:68 | on a frame with distinct names, the selection has one column per requested label |
| InferenceApi.ProjectAt | src/inference.py:68 | on a frame with distinct names, column `i` of the selection is the `i`-th requested label with the frame's value |
| InferenceApi.ProjectOfDistinct | src/inference.py:68 | on a frame with distinct names, the selection's columns are exactly `feature_names`, in order, each with the frame's value |
| InferenceApi.Predict | src/inference.py:41-75 | the handler, fill loop included, returns exactly the response the column pipeline and the model determine |
| InferenceApi.ModelInput | src/inference.py:43-68 | the frame reaches the model iff the encoding step succeeds, whose exception text is otherwise passed on; every column handed to the model is a training feature |
| InferenceApi.Respond | src/inference.py:41-75 | a prediction is returned only when `Type` is present, the model input was built, the model answered, and the class label is `int` of that answer |
| InferenceApi.MissingTypeRejected | src/inference.py:46-47 | without `Type` the answer is the fixed missing-`Type` error whatever the encoder and model are, so neither is consulted |
| InferenceApi.TypePresentNotRejected | src/inference.py:46-47 | with `Type` present the missing-`Type` error is not returned unless a collaborator raised that very text |
| InferenceApi.ExceptionsBecomeErrors | src/inference.py:70-75 | an exception from the encoder or the model comes back as its text; a prediction is returned iff the model answers and its answer converts with `int` |
| InferenceApi.CombinedDistinct | src/inference.py:57-61 | when payload keys and encoded names do not collide, the combined frame has distinct column names |
| InferenceApi.FilledFrameSelected | src/inference.py:64-68 | the model input's columns are exactly `feature_names`, in order, each holding the filled frame's value |
| InferenceApi.GetKeptByFill | src/inference.py:64-66 | a column present before the fill loop keeps its value |
| InferenceApi.GetAddedByFill | src/inference.py:64-66 | a feature column absent before the fill loop holds 0 |
| InferenceApi.EncodedCellSelected | src/inference.py:50-68 | a feature that is an encoded column holds the encoder's cell |
| InferenceApi.PayloadValueSelected | src/inference.py:57-68 | a feature that is a payload key other than `Type` holds the payload's value |
| InferenceApi.AbsentFeatureZero | src/inference.py:57-68 | a feature that is neither encoded nor in the payload (or is `Type` itself) holds 0 |
| InferenceApi.ModelInputColumns | src/inference.py:57-68 | the model receives exactly the columns `feature_names`, in order; each holds the encoded cell of that name, else the payload's own value (never the raw `Type`), else 0; every other payload key is gone |

## Left out

- JSON text is not modelled. A log line is either undecodable or an already-decoded object. A line that decodes to a non-object (a number, a list) is not modelled either, because `"prediction" in entry` means something else there.
- `json.dumps` followed by `json.loads` is taken to return the record unchanged. `Day2Inference.Serialize` gives the decoded form directly.
- The YAML configuration's contents, `joblib.load`, and the `deployment`/`data` keys are not modelled. Loading failures after the existence checks are not modelled either. Only the existence checks are.
- pandas I/O is not modelled: `read_csv`, the column-name `strip`, `dropna`, `to_csv` and the cleaned file's contents. The day-2 data comes in with its column names already stripped.
- `requests.post` and `.json()` are not modelled. They are a given sequence of replies, one per row; a reply is either a failure or a decoded JSON object. The model does not connect a reply to the request that produced it.
- `InferenceApi.Startup`: models only the existence checks. The configuration paths are not modelled.
- `Monitor.RunMonitor`: the loaded feature names are not used, so only their existence check is modelled.
- Accuracy is the exact ratio `(matches, total)`. Float division and the `:.4f` printing are not modelled. No console output is modelled.
- `datetime.now()` is an opaque string parameter. `RAW_PATH` and the processed directory come from the configuration and are parameters too. `os.makedirs` and `LOGS_DIR.mkdir` are not modelled.
- Exception message texts of pandas and of `int()` are stand-in constants. Only the `Type` message is the source's exact text.
- `PyValues.PyInt`: `int()` on strings accepts only an optional sign and ASCII digits. Surrounding whitespace, `_` separators and non-ASCII digits are not modelled. NaN and infinities are not modelled (a float here is an exact real).
- `PyValues.PyEq`: lists and nested objects compare by their canonical JSON text, not structurally.
- `DataPrep.MatchVersion`: `\d` is taken as ASCII digits. Python's `re` also matches other Unicode decimal digits in `str` patterns.
- `InferenceApi.ModelInputColumns`: stated only when the payload's keys are distinct from the encoder's output names. With such a collision pandas keeps both columns under one label, and `X[feature_names]` passes both to the model. `Project` models that case, but no lemma describes it.
- Building `pd.DataFrame([payload.data])` from a dict, and pydantic validation of the request body, are not modelled. The payload is an ordered dict of values.
- The encoder and classifier are uninterpreted functions. `get_feature_names_out` is a fixed list.
- The training script, the smoke test, the drift simulator and the FastAPI server are not part of this model.
