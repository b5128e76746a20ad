# SentrySense core, modelled in Dafny

SentrySense watches security logs for anomalies. This project models its core:

- **Context graph** (`ContextGraph`). `build_graph` links every pair of logged events that share a value in one of the context columns `masked_user`, `source_ip` and `resource`. `add_node_to_graph` adds one streamed event to that graph; `helper.py:30-45` holds an identical copy.
- **Streaming detector** (`StreamInference`). One run of `stream_inference.main`:
  - align the stream to the training columns and take its head event;
  - apply the late-night override, which uses the local time at the event's location;
  - otherwise score the event with the graph auto-encoder and explain a high score by its two worst-reconstructed features;
  - append one log line and rotate the head event to the tail of the stream.
- **Threshold calibration** (`Calibration`). `helper.py` scores every labelled test event. It splits the scores into normal and malicious and suggests the midpoint between the highest normal score and the lowest malicious score.
- **Preprocessing** (`Preprocess`). `clean_and_encode` drops the label columns and label-encodes the fourteen categorical columns. It encodes unseen values as -1, makes every column numeric, and aligns the stream to the training columns.
- **Older detector** (`AnomalyDetection`). These are the hand-written parts of `simulation_and_detection/anomaly_detection.py`:
  - feature engineering;
  - the class weight;
  - the sweep over 17 thresholds;
  - early stopping.
- **Alerting backend** (`AlertBackend`). The anomaly route of `backend/api.py`, the threat route that keeps the ten newest threats, and the monitor that alerts each high or medium threat once.

Shared modules:

- `Wrappers`: `Option` and `Result`.
- `Text`: Python's `strip`, `lower` (for ASCII letters), `in`, `split` and `int()` (for plain decimal text) on strings.
- `Order`: Python's string order, and sorted distinct values, which are `LabelEncoder.classes_`.
- `Frames`: a column-major data frame, with the column alignment done by both the stream and the preprocessing.

Modelling choices:

- Frame cells are `real`.
- `int()` of a number truncates toward zero (`ContextGraph.Trunc`).
- The graph auto-encoder is a parameter `forward`, from a graph to its reconstructed rows.
- The wall clock is a parameter `hourIn`, from a time-zone name to the current hour there.
- In `anomaly_detection.py`, validation F1 scores are parameters: `f1` gives the score of one threshold, and `sweepAt` gives the sweep result of one epoch.
- Writing numbers as text (`astype(str)`) and parsing text as numbers (`pd.to_numeric`) are parameters `show` and `parse`.
- Files are values; a missing or malformed JSON file reads as an empty list.
- Slack is an outbox of alerts.

Where the intended behaviour described for the system differs from the code, the model follows the code:

- **What `add_node_to_graph` compares.** It compares `df_existing.iloc[stream_row_idx]`, which is always row 0 of the training frame, not the new event's own context values.
  - `ContextGraph.InsertedIgnoresNewFeatures` proves that the new event's features never affect its edges.
  - `ContextGraph.SelfLoopUnreachable` proves that the self-loop cannot occur once row 0's context values are whole numbers.
- **Edge count when a fourth event joins three that share a value.** Three rows hold the same context value, and a fourth event is inserted. The code links the fourth to all three rows that hold row 0's value, not to one. The result is 12 directed edge entries, not 8.

## Model

| member | source | states |
|---|---|---|
| ContextGraph.MatchingRows | simulation_and_detection_/src/build_graph.py:21 | a value's group holds exactly the rows holding that value, in increasing order |
| ContextGraph.Groups | simulation_and_detection_/src/build_graph.py:21-22 | one group per distinct value of the column, in ascending value order |
| ContextGraph.BuildGraph | simulation_and_detection_/src/build_graph.py:13-37 | the graph built by the loops is the specified base graph, and its nodes are the frame's rows in order |
| ContextGraph.AppendGroupsEdges | simulation_and_detection_/src/build_graph.py:22-28 | the group loop appends the pair edges of every group of two or more rows, in group order |
| ContextGraph.AppendGroupPairs | simulation_and_detection_/src/build_graph.py:24-28 | the nested pair loop appends both directions of every pair i<j of the group |
| ContextGraph.ContextColumnsOk | simulation_and_detection_/src/build_graph.py:20-21 | the context columns are found exactly when every one of them is a column of the frame |
| ContextGraph.MissingColumnOnly | simulation_and_detection_/src/build_graph.py:21 | the only failure of the column lookup is a missing column |
| ContextGraph.GroupEdgesMembers | simulation_and_detection_/src/build_graph.py:24-28 | a group links exactly the ordered pairs of distinct members of the group |
| ContextGraph.ColumnEdgesMembers | simulation_and_detection_/src/build_graph.py:21-28 | one column links exactly the pairs of distinct rows holding the same value |
| ContextGraph.EdgesOfMembers | simulation_and_detection_/src/build_graph.py:20-28 | an edge (a, b) is present exactly when a != b and some context column holds the same value in rows a and b |
| ContextGraph.EdgesOfPaired | simulation_and_detection_/src/build_graph.py:27-28 | edges come in (i, j), (j, i) pairs, so the edge list is symmetric |
| ContextGraph.PairsBelowLength | simulation_and_detection_/src/build_graph.py:25-28 | the pair loop over a group of k rows adds k(k-1) directed edges |
| ContextGraph.EdgesOfLength | simulation_and_detection_/src/build_graph.py:20-28 | the number of edges is the sum of k(k-1) over all groups of all context columns |
| ContextGraph.BaseGraphShape | simulation_and_detection_/src/build_graph.py:13-37 | the built graph has the frame's rows as nodes, symmetric edges, no self-loops, endpoints within range, exactly the shared-value pairs as edges, and the pair count as its size |
| ContextGraph.NoEdgesIff | simulation_and_detection_/src/build_graph.py:30-31 | the "no edges" error is raised exactly when the columns exist and no two rows share a context value |
| ContextGraph.EdgesOfEmptyIff | simulation_and_detection_/src/build_graph.py:30 | the edge list is empty exactly when no two rows are linked |
| ContextGraph.Trunc | simulation_and_detection_/src/stream_inference.py:65 | `int()` truncates toward zero: the result is the whole part of the number on its own side of zero |
| ContextGraph.MatchesOf | simulation_and_detection_/src/stream_inference.py:64-66 | for each context column, the rows holding the truncated value of row `stream_row_idx` |
| ContextGraph.LinksOfSpokes | simulation_and_detection_/src/stream_inference.py:64-70 | the links added over all columns are the spokes to every match of every column, in column order |
| ContextGraph.LinksSpokes | simulation_and_detection_/src/stream_inference.py:64-70 | the link step succeeds exactly when the match lists exist, and then adds the spokes to every match |
| ContextGraph.AddNode | simulation_and_detection_/src/stream_inference.py:59-74 | the result is the specified insertion; the new row is appended as the last node, and the old nodes and old edges are kept as a prefix with at least one edge added |
| ContextGraph.LinkContext | simulation_and_detection_/src/stream_inference.py:63-70 | the column loop appends the links of every column, and `found_connection` holds exactly when some link was added |
| ContextGraph.AppendSpokes | simulation_and_detection_/src/stream_inference.py:67-70 | each match adds the edges (idx, new) and (new, idx), and sets the found flag |
| ContextGraph.SpokesMembers | simulation_and_detection_/src/stream_inference.py:67-70 | the spokes of a match list are exactly the edges between the new node and the matches, in both directions |
| ContextGraph.SpokesLength | simulation_and_detection_/src/stream_inference.py:67-70 | each match adds two edge entries |
| ContextGraph.AllSpokesEmpty | simulation_and_detection_/src/stream_inference.py:71-72 | no link is added exactly when every column has no match, and the links added are symmetric |
| ContextGraph.MatchListsAt | simulation_and_detection_/src/stream_inference.py:65-66 | row i is in column c's match list exactly when its value equals the truncated value of row `stream_row_idx` |
| ContextGraph.InsertedLinks | simulation_and_detection_/src/stream_inference.py:64-70 | the new node is linked to an existing row, in both directions, exactly when that row matches in some context column |
| ContextGraph.InsertedSelfLoop | simulation_and_detection_/src/stream_inference.py:71-72 | exactly one self-loop is added when nothing matches; otherwise the added edges are symmetric |
| ContextGraph.InsertedIgnoresNewFeatures | simulation_and_detection_/src/stream_inference.py:65 | the added edges do not depend on the new event's features |
| ContextGraph.SelfLoopUnreachable | simulation_and_detection_/src/stream_inference.py:65-72 | when row `stream_row_idx`'s context values are whole numbers, that row always matches itself, so the self-loop branch never runs |
| StreamInference.LocalHourKnown | simulation_and_detection_/src/stream_inference.py:76-82 | a local hour is known exactly for location codes 0 to 4, and is then the clock's hour in that city's zone; every other code, -1 included, gives no hour and "Unknown" |
| StreamInference.SquaredError | simulation_and_detection_/src/stream_inference.py:141-143 | the summed squared reconstruction error is never negative |
| StreamInference.SquaredErrorZero | simulation_and_detection_/src/stream_inference.py:141-143 | the error is zero exactly when the reconstruction equals the event |
| StreamInference.Best | simulation_and_detection_/src/stream_inference.py:159 | the index of a largest error other than a skipped index, or -1 when there is no candidate; no tie order is promised |
| StreamInference.TopTwo | simulation_and_detection_/src/stream_inference.py:159 | two distinct indices, the largest error first and the largest of the rest second |
| StreamInference.ReasonFor | simulation_and_detection_/src/stream_inference.py:163-170 | a feature is called normal exactly when its reconstruction is exact; otherwise the line carries the expected and the observed value |
| StreamInference.Explain | simulation_and_detection_/src/stream_inference.py:161-171 | one explanation line per top index, in top order |
| StreamInference.Score | simulation_and_detection_/src/stream_inference.py:133-171 | the scoring branch computes the specified verdict, or the width, graph or model-output error |
| StreamInference.JudgeHead | simulation_and_detection_/src/stream_inference.py:124-171 | the head event gets the override verdict or the model's verdict, as specified |
| StreamInference.StreamFiles.RunOnce | simulation_and_detection_/src/stream_inference.py:101-187 | one run produces the specified log entry; it appends that entry, if any, to the log and leaves the stream aligned and rotated |
| StreamInference.EmptyStreamLogsNothing | simulation_and_detection_/src/stream_inference.py:112-114 | a run logs nothing exactly when the stream is empty |
| StreamInference.OverrideIff | simulation_and_detection_/src/stream_inference.py:124-131 | the verdict is "medium" exactly when the location's local hour is known and below 4; it then names that city and hour and does not depend on the model |
| StreamInference.ScoredVerdict | simulation_and_detection_/src/stream_inference.py:139-153 | on the model path the score is the summed squared error of the new node's reconstruction, it is anomalous exactly above 10000000, and it is explained exactly when anomalous |
| StreamInference.ExplanationShape | simulation_and_detection_/src/stream_inference.py:153-171 | an anomalous event is explained by two distinct features: the largest absolute error first, then the largest of the rest, neither beaten by any other feature; each is called normal exactly when its error is zero, and the first is unusual |
| StreamInference.EntryIndex | simulation_and_detection_/src/stream_inference.py:118-121 | the log entry's index is the number of training rows, and its raw features are the aligned head event |
| StreamInference.Rotated | simulation_and_detection_/src/stream_inference.py:185-186 | rotating keeps the columns and the height |
| StreamInference.RotatedRows | simulation_and_detection_/src/stream_inference.py:185-186 | rotating moves the head row to the tail and keeps the others in order |
| StreamInference.RotationsSplit | simulation_and_detection_/src/stream_inference.py:185-187 | rotating a row list k times (k at most its length) gives its rows from k onward followed by its first k rows |
| StreamInference.RotatedNRows | simulation_and_detection_/src/stream_inference.py:185-186 | rotating a frame k times rotates its row list k times |
| StreamInference.AlignedRotated | simulation_and_detection_/src/stream_inference.py:102-106 | aligning the columns and rotating the rows can be done in either order |
| StreamInference.RunsRotate | simulation_and_detection_/src/stream_inference.py:101-187 | when each of k runs on a non-empty stream logs an entry, the stream file after them holds the aligned stream rotated k times |
| StreamInference.RunsCycle | simulation_and_detection_/src/stream_inference.py:101-187 | k runs of the script that raise nothing leave the aligned stream's events from the k-th on followed by the first k; after as many runs as there are events the stream is back in its original order |
| StreamInference.RotationsCycle | simulation_and_detection_/src/stream_inference.py:185-187 | rotating a row list as many times as it has rows restores it |
| Frames.Find | simulation_and_detection_/src/stream_inference.py:104 | a column is found exactly when it is present, at its first position |
| Frames.Align | simulation_and_detection_/src/stream_inference.py:102-106 | the alignment loop yields the specified aligned frame |
| Frames.AlignedShape | simulation_and_detection_/src/stream_inference.py:102-106 | the aligned frame has exactly the training columns in training order; present columns are copied, missing ones filled with 0, and the height is kept |
| Frames.AlignIdempotent | simulation_and_detection_/src/stream_inference.py:102-107 | aligning the saved aligned stream again changes nothing |
| Calibration.NormalizeIdempotent | simulation_and_detection_/src/helper.py:74-75 | normalising a label twice is the same as once |
| Calibration.Normalized | simulation_and_detection_/src/helper.py:74-75 | each label becomes its stripped, lower-cased form, one for one; the features and whether a target column exists are kept |
| Calibration.LowerKeepsSpaces | simulation_and_detection_/src/helper.py:75 | lower-casing keeps whitespace where it was |
| Calibration.Present | simulation_and_detection_/src/helper.py:79 | the kept columns are the training columns present in the test split |
| Calibration.PresentIsSubsequence | simulation_and_detection_/src/helper.py:79 | the kept columns keep training order |
| Calibration.KeptColumns | simulation_and_detection_/src/helper.py:79-81 | with a target column, "target" is kept last |
| Calibration.KeptColumnsMembers | simulation_and_detection_/src/helper.py:79-82 | a column is kept exactly when it is a training column present in the split, or it is the target |
| Calibration.NodeFeatures | simulation_and_detection_/src/helper.py:94-98 | a node row has one value per training column, or names a training column the split lacks |
| Calibration.NodeFeaturesOk | simulation_and_detection_/src/helper.py:94-98 | a node row exists exactly when the split has every training column, and then holds the event's values in training order |
| Calibration.ScoreRow | simulation_and_detection_/src/helper.py:98-103 | one event's score is the specified reconstruction error and is never negative |
| Calibration.ScoreSplit | simulation_and_detection_/src/helper.py:96-117 | the event loop yields the specified partition of the scores |
| Calibration.PartitionExact | simulation_and_detection_/src/helper.py:96-117 | every event is logged once, malicious ones as anomalous and all others as normal, each with its own score, in event order |
| Calibration.Max | simulation_and_detection_/src/helper.py:124 | the largest score of a non-empty list |
| Calibration.Min | simulation_and_detection_/src/helper.py:125 | the smallest score of a non-empty list |
| Calibration.ThresholdExists | simulation_and_detection_/src/helper.py:123-131 | a threshold is suggested exactly when both lists are non-empty |
| Calibration.ThresholdSeparates | simulation_and_detection_/src/helper.py:123-126 | when every normal score is below every malicious one, the threshold lies strictly between the two groups |
| Calibration.ThresholdBetweenExtremes | simulation_and_detection_/src/helper.py:124-126 | the threshold always lies between the highest normal score and the lowest malicious score |
| Calibration.Calibrate | simulation_and_detection_/src/helper.py:70-131 | the script normalises the labels, partitions the scores and suggests the midpoint threshold, or reports the first error |
| Order.Distinct | simulation_and_detection_/src/preprocess_clean.py:35 | the sorted distinct values are ascending and hold exactly the input values |
| Order.StrLessIsOrder | simulation_and_detection_/src/preprocess_clean.py:35 | Python's string comparison is a strict total order |
| Order.Insert | simulation_and_detection_/src/preprocess_clean.py:35 | inserting a value into an ascending list keeps it ascending and adds exactly that value |
| Order.IndexOf | simulation_and_detection_/src/preprocess_clean.py:35 | a class's code is its first position in the class list |
| Order.IndexOfAscending | simulation_and_detection_/src/preprocess_clean.py:35 | in an ascending list, positions follow the order of the values |
| Preprocess.Fit | simulation_and_detection_/src/preprocess_clean.py:34-35 | the fitted classes are the distinct values in ascending string order |
| Preprocess.SafeLabelEncodeMeaning | simulation_and_detection_/src/preprocess_clean.py:22-24 | a code is -1 exactly for an unseen value, and otherwise a class position that decodes back to the value |
| Preprocess.FitTransformCodes | simulation_and_detection_/src/preprocess_clean.py:35 | fitted codes lie in [0, #distinct), are equal exactly for equal values, and follow the string order |
| Preprocess.CategoricalDistinct | simulation_and_detection_/src/preprocess_clean.py:16-20 | the fourteen categorical columns are distinct |
| Preprocess.Drop | simulation_and_detection_/src/preprocess_clean.py:28 | dropping keeps exactly the columns not in the removal list, each with its cells, in their order, and keeps the height |
| Preprocess.EncodeAll | simulation_and_detection_/src/preprocess_clean.py:31-39 | encoding keeps the column names and the height |
| Preprocess.EncodeCategorical | simulation_and_detection_/src/preprocess_clean.py:31-39 | the categorical loop yields the specified encoding |
| Preprocess.FitStoresEncoders | simulation_and_detection_/src/preprocess_clean.py:33-36 | fitting stores an encoder for every categorical column present |
| Preprocess.KeptIndices | simulation_and_detection_/src/preprocess_clean.py:28 | the kept positions are ascending and are exactly the positions whose name is not removed |
| Preprocess.EncodeFitCodes | simulation_and_detection_/src/preprocess_clean.py:33-36 | with `fit=True`, a present categorical column becomes the codes of its text under classes fitted on that text, and those classes are the encoder stored under its name |
| Preprocess.FitOtherKeys | simulation_and_detection_/src/preprocess_clean.py:33-36 | fitting one column never changes the encoder stored for another |
| Preprocess.NumericColumnsAt | simulation_and_detection_/src/preprocess_clean.py:40-41 | each converted column is the conversion of the same column |
| Preprocess.CleanedKeepsOthers | simulation_and_detection_/src/preprocess_clean.py:26-49 | without alignment, a column neither removed nor categorical comes out with its name and its cells converted to numbers, at its place among the kept columns |
| Preprocess.TransformKeepsEncoders | simulation_and_detection_/src/preprocess_clean.py:37-39 | transforming leaves the encoders unchanged |
| Preprocess.EncodeKeepsOthers | simulation_and_detection_/src/preprocess_clean.py:31-39 | a non-categorical column is left as it was |
| Preprocess.EncodeTransformCodes | simulation_and_detection_/src/preprocess_clean.py:37-39 | without fitting, a present categorical column needs its encoder, and becomes the safe codes of its text |
| Preprocess.NumericColumn | simulation_and_detection_/src/preprocess_clean.py:41 | a column converts exactly when every text cell parses; numbers are kept |
| Preprocess.NumericColumns | simulation_and_detection_/src/preprocess_clean.py:40-41 | all converted columns keep the height, and the only failure is a non-numeric column |
| Preprocess.ToNumeric | simulation_and_detection_/src/preprocess_clean.py:40-41 | the conversion loop yields the specified numeric frame or the first failing column |
| Preprocess.CleanAndEncode | simulation_and_detection_/src/preprocess_clean.py:26-49 | the whole cleaning yields the specified frame and encoders |
| Preprocess.CleanedColumns | simulation_and_detection_/src/preprocess_clean.py:26-49 | the cleaned frame keeps the height; without alignment it has exactly the non-removed columns, and with alignment exactly the given columns in the given order |
| Text.StripIsTrimmedInfix | simulation_and_detection_/src/helper.py:75 | `strip` removes exactly the leading and trailing whitespace |
| Text.StripIdempotent | simulation_and_detection_/src/helper.py:75 | stripping twice is the same as once |
| Text.LowerAt | simulation_and_detection_/src/helper.py:75 | `lower` maps each character and leaves no ASCII capital |
| Text.LowerIdempotent | simulation_and_detection_/src/helper.py:75 | lower-casing twice is the same as once |
| Text.Contains | simulation_and_detection/anomaly_detection.py:52 | `sub in s` holds exactly when `sub` occurs at some position of `s` |
| Text.Split | simulation_and_detection/anomaly_detection.py:44 | splitting gives at least one piece, and no piece contains the separator |
| Text.JoinSplit | simulation_and_detection/anomaly_detection.py:44 | joining the pieces of a split gives back the text |
| Text.SplitJoin | simulation_and_detection/anomaly_detection.py:44 | splitting a join of separator-free pieces gives back the pieces |
| Text.ParseDecimalText | simulation_and_detection/anomaly_detection.py:44 | `int()` of a number's decimal text is the number |
| AnomalyDetection.ParseHourIso | simulation_and_detection/anomaly_detection.py:44 | a timestamp `<date>T<hour>:<rest>` gives the hour written between the `T` and the first `:` |
| AnomalyDetection.ParseHourNeedsSeparator | simulation_and_detection/anomaly_detection.py:44 | a timestamp without `T` raises |
| AnomalyDetection.AdminDeletedFlag | simulation_and_detection/anomaly_detection.py:52 | the seventh feature is 1 exactly when the role contains "admin" and the action contains "deleted", and 0 otherwise |
| AnomalyDetection.ForeignFlag | simulation_and_detection/anomaly_detection.py:53 | the eighth feature is 1 exactly when the location is "RU" or "UA", and 0 otherwise |
| AnomalyDetection.AdminAnywhere | simulation_and_detection/anomaly_detection.py:52 | the role test is a substring test |
| AnomalyDetection.FittedFields | simulation_and_detection/anomaly_detection.py:39-42 | every log's user, action, location and role are among the classes fitted on all logs |
| AnomalyDetection.EncodeShape | simulation_and_detection/anomaly_detection.py:45-54 | a row has 8 features; the four codes are class positions that decode back to the log's fields, followed by the hour, the risk score and the two flags |
| AnomalyDetection.FeatureEngineering | simulation_and_detection/anomaly_detection.py:31-55 | the loop fits the four encoders and yields the specified rows, or the first timestamp error |
| AnomalyDetection.RowsExact | simulation_and_detection/anomaly_detection.py:43-54 | the loop succeeds exactly when every row does, and then holds one row per log in log order |
| AnomalyDetection.FeaturesShape | simulation_and_detection/anomaly_detection.py:31-55 | the features exist exactly when every timestamp parses; then there is one 8-wide row per log, in order, with codes in [0, #distinct) |
| AnomalyDetection.AnomalyWeightMeaning | simulation_and_detection/anomaly_detection.py:94 | the weight times the number of anomalies is the number of logs; the weight is at least 1, and exactly 1 when there is no anomaly or all logs are anomalies |
| AnomalyDetection.SweepThresholdRange | simulation_and_detection/anomaly_detection.py:121 | the 17 thresholds run from 0.1 to 0.9 |
| AnomalyDetection.Sweep | simulation_and_detection/anomaly_detection.py:119-126 | the sweep's F1 is at least every threshold's F1; when positive it belongs to the first threshold reaching it, and otherwise the threshold stays 0.5 |
| AnomalyDetection.EarlyStopping | simulation_and_detection/anomaly_detection.py:104-138 | the training loop's bookkeeping is the specified epoch-by-epoch run over at most 50 epochs |
| AnomalyDetection.RunMeaning | simulation_and_detection/anomaly_detection.py:104-138 | the counter counts the epochs since the last strict improvement (all epochs while the best F1 is 0), and training stops early exactly when it reaches 11, otherwise running all epochs; the best F1 is at least every epoch's and, when positive, comes with the threshold of the epoch that reached it, every earlier epoch scoring strictly less |
| AlertBackend.AnomalyAlertFor | backend/api.py:36-42 | an anomaly report alerts exactly when its type is one of the listed types, with its type, user and time |
| AlertBackend.AlertTypesExact | backend/api.py:36-42 | there are nine distinct alerting types, and the match is case-sensitive |
| AlertBackend.Backend.ReportAnomaly | backend/api.py:31-44 | the report overwrites the logs file and sends its alert only for a listed type |
| AlertBackend.Take | backend/api.py:59 | `s[:n]` is exactly the first min(n, len(s)) elements |
| AlertBackend.KeptMeaning | backend/api.py:56-59 | the new threat is first, followed by the newest earlier threats in order, at most ten in all |
| AlertBackend.KeptAllNewest | backend/api.py:56-59 | after several reports the file holds the ten newest threats, newest first |
| AlertBackend.ThreatAlertMeaning | backend/api.py:61-81 | only high and medium threats alert; the alert names the threat's file, carries exactly the first three (high) or two (medium) fixes, or all when there are fewer; in the report route a medium description is its first 250 characters (all when shorter) followed by "...", and in the monitor the whole description |
| AlertBackend.LevelCaseInsensitive | backend/api.py:61-72 | the level is compared after lower-casing |
| AlertBackend.Backend.ReportThreat | backend/api.py:46-83 | the threats file becomes the kept list; a high or medium threat is sent, or raises after the file was written when the notifier takes no blocks |
| AlertBackend.DueExact | backend/api.py:103-131 | an alert is due exactly for an unseen high or medium threat of the cycle, and names an unseen file |
| AlertBackend.DueAppend | backend/api.py:103-131 | the seen list is not updated during a cycle: the alerts due for two lists are those of each |
| AlertBackend.DuplicateAlertsTwice | backend/api.py:104-134 | an unseen high or medium threat listed twice in one cycle alerts twice |
| AlertBackend.SomethingDue | backend/api.py:106-118 | a cycle with an unseen high or medium threat has an alert due |
| AlertBackend.AlertsOnce | backend/api.py:104-136 | once a cycle has recorded its alerts as seen, the same threats raise no alert again |
| AlertBackend.FilesAt | backend/api.py:119-131 | the recorded files are those of the alerts, in order |
| AlertBackend.Scan | backend/api.py:102-131 | the threat loop sends exactly the due alerts and collects their files, or raises at the first alert when the notifier takes no blocks |
| AlertBackend.Backend.MonitorCycle | backend/api.py:89-136 | a cycle sends the due alerts and appends their files to the seen list, writing it only when there are some; with the one-argument notifier, a cycle with an alert due raises and sends and records nothing |

## Left out

- Neural networks: the graph auto-encoder, the GAT classifier, their training, the optimiser and the learning-rate scheduler. They are parameters (`forward`, `f1`, `sweepAt`) or are not modelled.
- Library internals: scikit-learn's F1, `kneighbors_graph`, `StandardScaler` and `train_test_split`, and `precision_recall_fscore_support`. Their results are parameters or are not modelled.
- `simulation_and_detection/build_graph.py`, `createLogs.py`, `split_data.py`, `create_test_clean_numeric.py`, `train_gnn.py`, `add_recon_error_to_test.py`, `backend/integration_test.py`, `backend/slack_alerts.py`, the dashboard and `predictive_ai/`: these are data generation, network calls and display, and are not part of this model.
- File reading and writing, `print` and `os.makedirs`: files are values in the model.
- The wall clock and `pytz`: the hour in a zone is the parameter `hourIn`.
- Slack: delivery and message text are not modelled. Emoji, the bullet-joined fix list and `round(confidence * 100)` are left out; an alert carries its fields.
- Floating point: all numbers are exact reals, with no `float32` rounding of node features and no `float64` rounding of scores or thresholds.
- AnomalyDetection.SweepThreshold: uses the exact decimals 0.1 + 0.05k, not the values `np.linspace` rounds to.
- StreamInference.ReasonFor: keeps the expected and observed values, not the text with two decimals.
- Calibration.PartitionExact: a record carries the event index and score, not the `features` dictionary written to the log.
- Calibration.Normalized: the target column is modelled as text beside a numeric feature frame; a training column named "target" is not modelled.
- Text.Lower: maps ASCII capitals only, not the rest of Unicode's case mapping; the labels and levels it is compared against ("malicious", "high", "medium") are ASCII.
- Text.ParseInt: accepts plain decimal text only; Python's `int()` also accepts underscores between digits and non-ASCII decimal digits, so a timestamp hour written that way is `BadHour` in the model.
- StreamInference.Best: picks the later index among equal errors; `argsort`'s default sort is not stable, so its contract, and those of `TopTwo` and `ExplanationShape`, promise no tie order.
- Preprocess.Texts: `astype(str)` of a number is the parameter `show`, and `pd.to_numeric` of text is the parameter `parse`.
- AlertBackend.Backend.MonitorCycle: the entries of the threats file are assumed to be complete threat reports. The `.get` defaults of entries with missing keys, and a `file` that is absent (`None`), are not modelled.
- The repeating 30-second schedule of the monitor is not modelled; one cycle is one call.
- AnomalyDetection.FeatureEngineering: `risk_score` is taken as a number; JSON values of other types are not modelled.
- The final test evaluation and the writing of detected anomalies in `anomaly_detection.py` (lines 139-160) depend only on the network and the library metrics, and are left out.

## Findings

| source | as written | input that shows it | evidently intended | confidence | as-written member | corrected member |
|---|---|---|---|---|---|---|
| backend/api.py:118 | `send_slack_alert(message, blocks)` passes two arguments, but the notifier (`send_slack_alert(message)` in `backend/slack_alerts.py`) takes one, so the call raises `TypeError` before `new_alerts.append` | a threats file holding one unseen threat with `risk_level` "high" | the alert is sent and its file is recorded in the seen list, so it alerts once | not executed | AlertBackend.SomethingDue | AlertBackend.AlertsOnce |

With `notifierTakesBlocks` false, `AlertBackend.Backend.MonitorCycle` returns `TypeError` for every cycle that has an alert due. It then sends nothing and leaves the seen list as it was, so `AlertBackend.SomethingDue` finds the same alert due in the next cycle, and the threat is never recorded. With a notifier that takes the blocks, `AlertBackend.AlertsOnce` proves that a recorded alert is never raised again. The same call at `backend/api.py:70` and `:81` makes `report_threat` fail after it has written the threats file, as the contract of `AlertBackend.Backend.ReportThreat` states.
