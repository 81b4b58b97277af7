# Tracker evaluation engine of EMA-2A-Mission-MOVCAP, in Dafny

The C++ tools of this repository measure how well an OpenCV object tracker
follows a target in a video. A person draws one ground-truth box per frame
(`cutRect`, with `selectROI`), and the boxes are saved to and read back from
a text file, one `[W x H from (X, Y)]` line per box (`save_box`,
`read_box`). The tracker is then started on frame 0 with the first box, and
on every later frame its answer is scored against that frame's box
(`calculateIoU`). The score is either plain intersection over union
(`IoU_eval`) or the background-weighted score of Hager et al., "Countering
bias in tracking evaluations" (`unbiased_IoU_eval`).

The same engine is copied, with small differences, into five programs:

- `eval.cpp` and `test.cpp` guard both metrics with an early 0.0 for an
  empty intersection, and record 0.0 for a failed tracker update.
- `detect_eval.cpp` has no guard and records −1.0 for a failed update.
- `detectionEvaluator.cpp` also has no guard and records −1.0. It only
  annotates and scores once per period of `n_frames / n_eval` frames.
- `select.cpp` is the annotation tool: it selects boxes on every frame and
  writes them to `<video>.txt`.

The modules follow that structure:

- `Boxes` holds boxes and OpenCV's `a & b` intersection.
- `Metrics` holds the guarded and unguarded metrics, with exact integer
  areas and exact real ratios.
- `BoxCodec` holds the line printer and a directive-by-directive model of
  `sscanf("[%d x %d from (%d, %d)]")`.
- `GroundTruth` holds `getline` splitting, `read_box` with its carried
  `w, h, x, y` variables, and `save_box`.
- `Tracking` holds the outside world a loop sees:
  - the video is a sequence of read results;
  - the tracker is a function of (update call number, reads made so far);
  - the scoring rule of each copy is a parameter.
- `Evaluator` holds the per-frame `cutRect` and `calculateIoU` of
  `eval.cpp`, `test.cpp`, `detect_eval.cpp` and `select.cpp`. Each is a loop
  proved against a function of its inputs.
- `IntervalEvaluator` holds the interval `cutRect` and `calculateIoU` of
  `detectionEvaluator.cpp`.
- `EvaluatorMain` holds that program's argument dispatch.
- `SelectMain` holds the annotation tool's `main`.

Where `calculateIoU` calls a metric, `Tracking.Scoring` selects the copy:

- `Scoring(Guarded, unbiased, 0.0)` for `eval.cpp` and `test.cpp`;
- `Scoring(Unguarded, unbiased, -1.0)` for `detect_eval.cpp`;
- `Scoring(Unguarded, true, -1.0)` for `detectionEvaluator.cpp`, where
  `UNBIASED` is defined as true.

A division by zero, which gives NaN or an infinity in double arithmetic, is
recorded as `None`.

## Model

| member | source | states |
|---|---|---|
| Boxes.Intersect | src/eval.cpp:132 | `a & d` is a valid box. When the boxes overlap, its corner is the larger top-left corner and its far edges are the nearer right and bottom edges. Otherwise it is the empty rectangle. |
| Boxes.IntersectionBounds | src/eval.cpp:132-140 | The intersection area is at least 0 and at most either box's area. It is positive exactly when the boxes overlap. |
| Boxes.IntersectCommutes | src/detect_eval.cpp:275 | `a & d == d & a`. |
| Boxes.IntersectSelf | src/detectionEvaluator.cpp:188 | A box of positive area intersected with itself is itself. |
| Metrics.UnionBounds | src/eval.cpp:138-143 | The divisor A_da + A_d1a + A_da1 is at least either area. It is positive exactly when one of the boxes has positive area. |
| Metrics.PlainRatioRange | src/eval.cpp:138-143 | A_da / (A_da + A_d1a + A_da1) is 0 for an empty intersection, lies in (0, 1] otherwise, and times the union gives A_da. |
| Metrics.PlainRatioSymmetric | src/test.cpp:176-181 | Swapping the two box areas leaves the plain ratio unchanged. |
| Metrics.UnbiasedRatioClosedForm | src/eval.cpp:161-177 | w0 = U² / (U² + (A_bg − A_da)²), and the score is w0 · A_da/U + (1 − w0) · (A_bg − U)/(A_bg − A_da). |
| Metrics.UnbiasedRatioSymmetric | src/test.cpp:201-217 | Swapping the two box areas leaves the unbiased expression unchanged. |
| Metrics.BackgroundRatioRange | src/eval.cpp:176-177 | With A_bg ≥ U and A_bg > A_da, the background term (A_bg − U)/(A_bg − A_da) lies in [0, 1]. |
| Metrics.UnbiasedRatioRange | src/eval.cpp:171-177 | For a non-empty intersection in a frame at least as large as the union: w0 lies in (0, 1), the foreground term in (0, 1], the background term in [0, 1]. The score lies between the two terms and in [0, 1]. |
| Metrics.UnbiasedRatioSelf | src/eval.cpp:171-179 | Identical areas 0 < e < A_bg score exactly 1. |
| Metrics.IoU | src/eval.cpp:128-145 | The guarded IoU is 0 exactly when the intersection area is 0, and lies in (0, 1] otherwise. |
| Metrics.GuardedRatio | src/eval.cpp:134-143 | The early return gives 0 exactly for an empty intersection. Otherwise the result is in (0, 1]. Always, result × union == A_da. |
| Metrics.UnbiasedIoU | src/eval.cpp:153-158 | The guarded unbiased score is 0 for an empty intersection. |
| Metrics.IoUSymmetric | src/test.cpp:166-183 | The guarded IoU is symmetric in annotation and detection. |
| Metrics.IoUSelf | src/eval.cpp:138-144 | A box of positive area scores IoU 1 against itself. |
| Metrics.UnguardedIoUAgrees | src/detect_eval.cpp:271-283 | Wherever the union is positive, the unguarded IoU equals the guarded one, and it is 0 for disjoint boxes. |
| Metrics.UnguardedIoUSymmetric | src/detect_eval.cpp:275-282 | The unguarded IoU is symmetric. |
| Metrics.UnguardedIoUSelf | src/detectionEvaluator.cpp:184-196 | The unguarded IoU of a box of positive area with itself is 1. |
| Metrics.UnguardedIoU | src/detect_eval.cpp:271-283 | Definition of `IoU_eval` without the early return, as also at src/detectionEvaluator.cpp:184-196: A_da / (A_da + A_d1a + A_da1) with A_d1a = A_d − A_da and A_da1 = A_a − A_da. Its properties are in UnguardedIoUAgrees, UnguardedIoUSymmetric and UnguardedIoUSelf. |
| Metrics.UnguardedUnbiasedIoU | src/detect_eval.cpp:285-313 | Definition of `unbiased_IoU_eval` without the early return: the weighted foreground and background terms of UnbiasedRatio, for any intersection. Its properties are in UnbiasedDecomposition, UnguardedUnbiasedSymmetric and UnguardedUnbiasedDisjoint. |
| Metrics.Score | src/eval.cpp:103-112 | Definition: the metric `calculateIoU` applies to a successful update, the unbiased or the plain one, with or without the early return, as the copy chooses. |
| Metrics.BackgroundAccuracy | src/eval.cpp:176-177 | The background term of two boxes lies in [0, 1] when the frame is at least the union and larger than the intersection. |
| Metrics.UnbiasedDecomposition | src/eval.cpp:160-179 | For overlapping boxes, unbiased = w0 · IoU + (1 − w0) · background term, with w0 = U²/(U² + (A_bg − I)²). The unguarded copy gives the same value there. |
| Metrics.UnbiasedInUnit | src/test.cpp:196-219 | With A_bg ≥ U and A_bg > I, the guarded unbiased score lies in [0, 1]. |
| Metrics.UnbiasedBetween | src/eval.cpp:171-177 | For overlapping boxes in such a frame, w0 is in (0, 1) and the score lies between the IoU and the background term. |
| Metrics.UnbiasedSelf | src/eval.cpp:171-179 | A box with 0 < area < A_bg scores 1 against itself. |
| Metrics.UnbiasedSymmetric | src/eval.cpp:147-181 | The guarded unbiased score is symmetric in annotation and detection. |
| Metrics.UnguardedUnbiasedSymmetric | src/detect_eval.cpp:285-313 | The unguarded unbiased score is symmetric. |
| Metrics.UnguardedUnbiasedDisjoint | src/detect_eval.cpp:291-311 | Without the guard, disjoint boxes score (1 − w0) · (A_bg − U)/A_bg with w0 = U²/(U² + A_bg²), not 0. |
| Metrics.UnguardedUnbiasedDisjointPositive | src/detect_eval.cpp:291-311 | Two disjoint 1 × 1 boxes in a 100-pixel frame: the guarded score is 0, the unguarded one 9800/10004. |
| Metrics.WorkedExample | src/test.cpp:185-221 | Boxes (0,0,100,100) and (10,10,100,100) in a frame of 10000 pixels: intersection 8100, union 11900, IoU 8100/11900. The frame is smaller than the union, so the background term is −1 and the unbiased score falls below the IoU. |
| Metrics.WorkedExampleLargeFrame | src/test.cpp:185-221 | The same boxes in a frame of 40000 pixels, which holds the union: the background term is 28100/31900, and the unbiased score lies strictly between the IoU and that term, so above the IoU. |
| BoxCodec.NatToString | src/test.cpp:261 | A printed non-negative number starts with a digit. |
| BoxCodec.DigitsValueOfNat | src/test.cpp:261 | The printed digits of n have value n. |
| BoxCodec.SkipBlanks | src/eval.cpp:204 | Removes leading white space only: what is left does not start with a blank. |
| BoxCodec.DigitRun | src/eval.cpp:204 | The digit run ends at the first non-digit. |
| BoxCodec.ScanInt | src/eval.cpp:204 | Definition of one `%d`: skip white space, take an optional sign and at least one digit, and return the value and the rest; None when no digit follows. Its property is in ScanIntOfString. |
| BoxCodec.Scan | src/eval.cpp:204 | Definition of `sscanf` over a compiled format: the values converted in order, up to the first directive that fails to match. Its properties are in ScanFormat, ScanFromMismatch and ScanLineExponent. |
| BoxCodec.ScanLine | src/eval.cpp:204-205 | Definition of the `sscanf` call in `read_box`: the pattern's conversions stored over the previous `w, h, x, y`. Its properties are in ScanLineFormat, ScanLineNoBracket, ScanLinePartial and ScanLineExponent. |
| BoxCodec.Store | src/eval.cpp:200-205 | The k conversions made are stored in `w, h, x, y` in that order. The other variables keep their previous values. |
| BoxCodec.ToBox | src/eval.cpp:205 | The fields (w, h, x, y) become `Rect2d(x, y, w, h)`. |
| BoxCodec.Format | src/test.cpp:261 | Definition of `fp << *it` for a box whose fields print in plain decimal: `[W x H from (X, Y)]` with each field in decimal and a minus sign when negative. Its properties are in ScanFormat and GroundTruth.FormatNoNewline. |
| BoxCodec.FieldsOf | src/eval.cpp:205 | The inverse of ToBox. |
| BoxCodec.ScanIntOfString | src/eval.cpp:204 | `%d` reads back a printed integer of either sign and stops before what follows it. |
| BoxCodec.ScanFormat | src/test.cpp:244 | The pattern `[%d x %d from (%d, %d)]` converts all four numbers of a printed box, in the order w, h, x, y. |
| BoxCodec.ScanLineFormat | src/test.cpp:244-245 | Scanning a printed box sets all four variables to the box's fields, whatever they held before. |
| BoxCodec.ScanLineNoBracket | src/select.cpp:86 | A line that does not start with `[` converts nothing, so all four variables keep their values. |
| BoxCodec.ScanLinePartial | src/select.cpp:86-87 | `[3 x 4 from [5, 6]]` sets only w and h. x and y keep the previous line's values. |
| BoxCodec.ScanLineExponent | src/select.cpp:86-87 | A line whose first number is the mantissa `1` of an exponent form, such as `[1e+06 x 5 from (0, 0)]`, sets only w, to 1. h, x and y keep the previous line's values. |
| GroundTruth.LineEnd | src/eval.cpp:194 | The first line ends at the first line break, or at the end of the text. |
| GroundTruth.Lines | src/eval.cpp:194-196 | No line read by `getline` contains a line break. |
| GroundTruth.LinesCons | src/eval.cpp:194-196 | `getline` splits off a break-free prefix and its line break. |
| GroundTruth.ReadAll | src/detect_eval.cpp:315-329 | `read_box` yields exactly one box per line. |
| GroundTruth.ReadBoxLines | src/detect_eval.cpp:319-328 | The loop with its carried `w, h, x, y` computes ReadAll. |
| GroundTruth.ReadBoxFile | src/eval.cpp:183-209 | `read_box(fname)` reads the boxes of the file's lines. A file that cannot be opened gives no boxes. |
| GroundTruth.ReadAllAt | src/select.cpp:83-88 | Box i is line i scanned over what the lines before it left in the variables. |
| GroundTruth.ReadAllCarries | src/select.cpp:82-88 | Each box after the first is the previous box with this line's conversions written over it. |
| GroundTruth.ReadAllMalformed | src/test.cpp:240-246 | A line without `[` still yields a box: a copy of the previous one, or the initial contents for the first line. |
| GroundTruth.ReadScanned | src/test.cpp:241-246 | Lines each of which scans to its box, whatever the variables held, read back to those boxes. |
| GroundTruth.UnlinesPrefix | src/test.cpp:258-262 | Writing one more box appends its line and a line break. |
| GroundTruth.LinesOfUnlines | src/eval.cpp:194-196 | `getline` splits lines joined with line breaks back into the same lines. |
| GroundTruth.SaveBox | src/test.cpp:251-269 | `save_box` writes exactly the printed boxes, one per line, in vector order, each followed by a line break. |
| GroundTruth.SaveText | src/test.cpp:251-269 | Definition of the file `save_box` writes: each printed box followed by a line break, in vector order. Its properties are in GroundTruth.LinesOfSaveText and GroundTruth.ReadSaved. |
| GroundTruth.FormatNoNewline | src/select.cpp:103 | A printed box contains no line break. |
| GroundTruth.LinesOfSaveText | src/select.cpp:100-104 | The lines of the saved text are the printed boxes, in order. |
| GroundTruth.ReadSaved | src/select.cpp:65-111 | Round trip: `read_box` of `save_box(b)` gives back `b`, whatever the variables held before the first line, when every field of `b` is below 10^6 in magnitude (BoxCodec.Printable). |
| Tracking.FramesRead | src/test.cpp:82-88 | The loop gets at most `n_frames` frames. All of them are read successfully, and the read that stops it early fails. |
| Tracking.Measure | src/eval.cpp:103-112 | Definition: the chosen metric of the annotation and the tracker's box in a frame of the given area, or None where the source divides by zero or a box has a negative size. |
| Tracking.Entry | src/eval.cpp:102-117 | Definition of the value pushed for one scored frame: Measure when the update succeeded, the copy's sentinel (0.0 or −1.0) when it failed. Its properties are in SentinelMarksFailure, ZeroSentinelAmbiguous and GuardedEntryInUnit. |
| Tracking.SentinelMarksFailure | src/detect_eval.cpp:256-260 | With −1.0 and the plain IoU, an entry is −1.0 exactly when the tracker update failed. |
| Tracking.ZeroSentinelAmbiguous | src/eval.cpp:114-116 | With 0.0, a failed update and a successful one that misses the annotation record the same entry. |
| Tracking.GuardedEntryInUnit | src/eval.cpp:103-112 | A successful update scored by a guarded metric, in a frame at least the union, gives a value in [0, 1]. |
| Evaluator.CutRect | src/test.cpp:64-99 | One selected box per frame read, in frame order. It stops at the first failed read, so there are at most `n_frames` boxes. |
| Evaluator.Scores | src/eval.cpp:101-117 | m scored frames give m entries. |
| Evaluator.Calls | src/eval.cpp:97-102 | Frames 0 .. m give m + 1 tracker calls. |
| Evaluator.ScoresAt | src/eval.cpp:96-117 | Entry k scores frame k + 1 with update call k against `bounds[k + 1]`. |
| Evaluator.CallsAt | src/eval.cpp:97-102 | Call 0 is `init` with `bounds[0]` after read 1. Every later call is an `update` right after its frame's read. |
| Evaluator.CalculateIoU | src/eval.cpp:64-124 | The frame loop returns PerFrame: an exception on `bounds.at`, or the entries and the tracker calls. |
| Evaluator.PerFrame | src/eval.cpp:64-124 | Reference definition the frame loop is proved against: an exception at `bounds.at(0)` or at the first frame without an annotation, otherwise the entries of Scores and the tracker calls of Calls. Its properties are in PerFrameShape and PerFrameInRange. |
| Evaluator.PerFrameShape | src/test.cpp:127-158 | In a completed run: one entry per frame read after the first (fewer than `n_frames`); `init` once, first, with `bounds[0]`; one `update` per later frame; entry k is the sentinel or the chosen metric for frame k + 1. |
| Evaluator.PerFrameInRange | src/eval.cpp:85-96 | A run completes exactly when there is an annotation and no more frames are read than there are annotations. |
| Evaluator.CutThenEvaluate | src/detect_eval.cpp:228-243 | Evaluating on the video that `cutRect` annotated completes, with one entry per annotated frame but the first. |
| IntervalEvaluator.CutRectInterval | src/detectionEvaluator.cpp:69-109 | The nested loops return CutIntervals. |
| IntervalEvaluator.CutIntervals | src/detectionEvaluator.cpp:69-109 | Reference definition the nested loops are proved against: the box of the first frame, then one box after each period's inner loop, stopping at the first failed read. Its properties are in CutIntervalsAtMost and CutIntervalsAllRead. |
| IntervalEvaluator.CutSkipAdds | src/detectionEvaluator.cpp:88-99 | An inner loop adds a box only on the very first frame of the video. |
| IntervalEvaluator.CutPeriodsAtMost | src/detectionEvaluator.cpp:87-105 | The outer loop keeps the boxes it has and adds at most one per period, plus the first frame's box. |
| IntervalEvaluator.CutIntervalsAtMost | src/detectionEvaluator.cpp:85-105 | `cutRect(n)` returns at most n + 1 boxes. |
| IntervalEvaluator.CutSkipAllRead | src/detectionEvaluator.cpp:88-99 | With its reads succeeding, an inner loop makes all `intervals` reads and selects on the first frame only. |
| IntervalEvaluator.CutPeriodStep | src/detectionEvaluator.cpp:100-104 | After a period whose reads succeed, the extra read's frame gets a box. |
| IntervalEvaluator.CutPeriodsAllRead | src/detectionEvaluator.cpp:87-105 | With all reads succeeding, period k adds the box of read k·(iv + 1) + iv. |
| IntervalEvaluator.CutIntervalsAllRead | src/detectionEvaluator.cpp:85-105 | With `intervals` ≥ 1 and all reads succeeding: box 0 is frame 0's, and box k + 1 is read k·(iv + 1) + iv's. With CutIntervalsAtMost, that makes exactly n + 1 boxes. |
| IntervalEvaluator.CalculateIoUInterval | src/detectionEvaluator.cpp:111-182 | The nested loops return IntervalRun. |
| IntervalEvaluator.IntervalRun | src/detectionEvaluator.cpp:111-182 | Reference definition the nested loops are proved against: for each period, the inner tracking loop and then one scored update against `bounds.at(i + 1)`. Its properties are in IntervalOutcome, IntervalAllRead, IntervalInitOnce and IntervalCallsAllRead. |
| IntervalEvaluator.TrackSkipKeeps | src/detectionEvaluator.cpp:140-155 | The inner loop records no entry. |
| IntervalEvaluator.TrackPeriodsOutcome | src/detectionEvaluator.cpp:138-177 | The outer loop completes exactly when every remaining period has an annotation. It then adds one entry per period, whatever the reads do. Otherwise it throws at `bounds.at(bounds.size())`. |
| IntervalEvaluator.IntervalOutcome | src/detectionEvaluator.cpp:131-177 | `calculateIoU(n_eval)` returns exactly `n_eval` entries when bounds.size() > n_eval. Otherwise it throws on `bounds.at(bounds.size())`. |
| IntervalEvaluator.TrackSkipAllRead | src/detectionEvaluator.cpp:140-155 | With its reads succeeding, a later inner loop makes `intervals` reads and as many updates, and keeps the area. |
| IntervalEvaluator.TrackSkipCallsAllRead | src/detectionEvaluator.cpp:140-155 | With its reads succeeding, a later inner loop keeps the calls made before it and adds one update call per read. |
| IntervalEvaluator.TrackSkipFirst | src/detectionEvaluator.cpp:140-155 | With its reads succeeding, the first inner loop makes `intervals` reads and updates and takes the area of frame 0. Its first two tracker calls are `init` with `bounds[0]` after read 1, then an update on that same frame. It adds `intervals` + 1 calls in all. |
| IntervalEvaluator.TrackPeriodStep | src/detectionEvaluator.cpp:156-175 | A period whose reads succeed adds the entry for its last frame, using update call k·(iv + 1) + iv. |
| IntervalEvaluator.TrackPeriodsAllRead | src/detectionEvaluator.cpp:138-177 | With all reads succeeding, period k is scored after (k + 1)·iv reads against annotation k + 1, with the area of frame 0. |
| IntervalEvaluator.IntervalAllRead | src/detectionEvaluator.cpp:131-177 | The same for the whole `calculateIoU(n_eval)`: `n_eval` entries, entry k on the last frame of period k. |
| IntervalEvaluator.TrackSkipCalls | src/detectionEvaluator.cpp:146-153 | Whatever the reads do, an inner loop adds `init` only on the video's first read, to an empty call list, with `bounds[0]`. |
| IntervalEvaluator.TrackPeriodsCalls | src/detectionEvaluator.cpp:138-157 | The outer loop keeps that property: in a completed run, `init` can only be call 0. |
| IntervalEvaluator.IntervalInitOnce | src/detectionEvaluator.cpp:146-157 | Whatever the reads do, a completed `calculateIoU(n_eval)` calls `init` at most once: as call 0, after read 1, with `bounds[0]`. Every later call is an update. |
| IntervalEvaluator.TrackPeriodsCallsAllRead | src/detectionEvaluator.cpp:138-157 | From period 1 on, with all reads succeeding, each period adds `intervals` + 1 update calls and keeps the earlier calls. |
| IntervalEvaluator.IntervalCallsAllRead | src/detectionEvaluator.cpp:138-157 | With all reads succeeding and more than `n_eval` annotations: call 0 is `init` with `bounds[0]` after read 1, call 1 an update on that same frame, every later call an update, n_eval · (intervals + 1) + 1 calls in all. |
| IntervalEvaluator.MainScheduleMisaligned | src/detectionEvaluator.cpp:249-251 | With 300 readable frames and 10 evaluations, `main` scores period 0 after read 30 against the box chosen on read 27. |
| IntervalEvaluator.ScheduleAlignedIff | src/detectionEvaluator.cpp:85-131 | The annotation read k·(ic + 1) + ic of `cutRect(n + 1)` and the scored read (k + 1)·ie − 1 of `calculateIoU(n)` coincide exactly when ic + 1 == ie. |
| IntervalEvaluator.AlignedSkipAllRead | src/detectionEvaluator.cpp:88-99 | Corrected inner loop: with its reads succeeding, it selects on the last frame of the period. |
| IntervalEvaluator.AlignedPeriodsAllRead | src/detectionEvaluator.cpp:87-105 | Corrected outer loop: period k adds the box of its last frame k·iv + iv − 1. |
| IntervalEvaluator.CutAlignedAllRead | src/detectionEvaluator.cpp:69-109 | The corrected `cutRect(n)` returns n + 1 boxes: frame 0's, then the last frame of each of the n periods. |
| IntervalEvaluator.AlignedScheduleScoresSameFrame | src/detectionEvaluator.cpp:249-251 | Paired with the corrected `cutRect`, every period is scored against the box chosen on the very frame the scoring update sees. |
| EvaluatorMain.StoiOfString | src/detectionEvaluator.cpp:242 | `stoi` converts every printed 32-bit integer back to itself. |
| EvaluatorMain.Stoi | src/detectionEvaluator.cpp:242 | Definition of `stoi`: one `%d`-style conversion, None when no digit is found or the value is outside the 32-bit range. Its properties are in StoiOfString and DispatchReadsCount. |
| EvaluatorMain.Dispatch | src/detectionEvaluator.cpp:228-262 | Definition of the dispatch in `main`: help, evaluation with the video, the tracker and 10 or the converted count, a failed conversion, or the usage message. Its properties are in DispatchHelp, DispatchEvaluate, DispatchUsage, DispatchIgnoresThird and DispatchReadsCount. |
| EvaluatorMain.DispatchHelp | src/detectionEvaluator.cpp:231-233 | Help is shown exactly for one argument that is `-h` or `--help`. |
| EvaluatorMain.DispatchEvaluate | src/detectionEvaluator.cpp:235-247 | The program evaluates exactly for two arguments, or four whose fourth converts. It uses the first two as the video and the tracker, with 10 evaluations or the fourth argument's number. |
| EvaluatorMain.DispatchUsage | src/detectionEvaluator.cpp:260-262 | The usage message is given exactly when the argument count is neither 3 nor 5 and the arguments are not a lone `-h` or `--help`. |
| EvaluatorMain.DispatchIgnoresThird | src/detectionEvaluator.cpp:235-247 | The third argument has no effect. |
| EvaluatorMain.DispatchReadsCount | src/detectionEvaluator.cpp:242 | A count given in decimal is the count used. |
| SelectMain.OutputName | src/select.cpp:116-118 | The output name is the input path followed by `.txt`. |
| SelectMain.OutputNameInjective | src/select.cpp:116-118 | Different videos get different output names. |
| SelectMain.Annotate | src/select.cpp:114-131 | `main` writes `<video>.txt` with one line per frame read, holding the box selected on it. When every selected field is below 10^6 in magnitude, reading the file back gives the same boxes. |

## Left out

- `createTrackerType` and the tracker algorithms (MIL, KCF, TLD, CSRT…) are OpenCV calls. The tracker is the parameter `update`, a function of the update call number and the number of reads made.
- Video input and the GUI are not modelled: `VideoCapture`, `selectROI`, `namedWindow` and the frame-count property. The video is a sequence of read results, and ROI selection is the parameter `select`, keyed by read number.
- `exit(1)` on a video that cannot be opened is not modelled. Opening is assumed to succeed.
- Output to `cout`/`cerr`, the help text and the printing of results in every `main` are left out, because they have no effect on the values computed.
- `drawrect`, `calculateIoU_genvid` and `calculateIoU_genvid2` are rendering paths around the same scoring, so they are left out.
- The pixel filters are left out: `bc_adjust`, `gamma_corr`, `vid_gamma_corr` and `vid_corr.cpp`.
- `timecount.cpp`, `kalman_tracker.cpp` and the Python driver scripts are left out. The `main` functions of `eval.cpp`, `test.cpp` and `detect_eval.cpp` are left out as well: they are fixed driver code.
- Double rounding, `pow`, NaN and infinities are not modelled: areas are exact integers and ratios exact reals. A zero divisor makes Tracking.Measure return None.
- Tracking.Measure: a tracker or annotation box with a negative width or height gives None. The source would still compute a number from the signed areas.
- BoxCodec.Format: OpenCV's `operator<<` for rectangles is not shown in the source. BoxCodec.Format prints each field in plain decimal as `[W x H from (X, Y)]`, the form the reader's pattern expects. The `Rect2d` fields are doubles, printed with the stream's default precision of six digits. A field of magnitude 10^6 or more comes out in exponent form, so `Box(0, 0, 1000000, 5)` is printed `[1e+06 x 5 from (0, 0)]`. `%d` then reads w = 1 and stops at the `e` (BoxCodec.ScanLineExponent). GroundTruth.ReadSaved and SelectMain.Annotate therefore state the round trip only for boxes whose fields are below 10^6 in magnitude (BoxCodec.Printable). Fractional fields are out of scope, because every box is integer-valued.
- BoxCodec.ScanInt: 32-bit overflow of `%d` is not modelled, because the C library leaves it undefined. Integers are unbounded.
- Tracking.FrameArea: 32-bit overflow of `rows * cols` is not modelled.
- GroundTruth.ReadBoxLines: the initial contents of the uninitialised `w, h, x, y` are the parameter `init`.
- IntervalEvaluator.CalculateIoUInterval: the uninitialised `area`, used when no frame is ever read, is the parameter `area0`.
- IntervalEvaluator.CutRectInterval and CalculateIoUInterval require n > 0. `n_eval` is unsigned, so a negative count from `stoi` wraps to a huge value, and `n_eval + 1` can overflow. Neither is modelled.
- EvaluatorMain.Dispatch: what `main` does after dispatch (`cutRect(n_eval + 1)` then `calculateIoU(n_eval)`) is stated by IntervalEvaluator.MainScheduleMisaligned. It is not a function of the arguments, because the video is an input sequence.
- SelectMain.Annotate requires at least one argument. `argv[1]` does not exist otherwise, and the source does not check.
- Writing the ground-truth file cannot fail in the model: SaveBox returns the text written.
- Metrics.IoU: the identity result × union == intersection is stated by Metrics.GuardedRatio and Metrics.PlainRatioRange, not in IoU's own contract.

## Findings

| source | as written | input that shows it | evidently intended | confidence | as-written member | corrected member |
|---|---|---|---|---|---|---|
| src/detectionEvaluator.cpp:249 | `main` annotates with `cutRect(vfname, n_eval + 1)`, whose periods are `n_frames / (n_eval + 1)` frames long (line 85). It scores with `calculateIoU(vfname, n_eval)`, whose periods are `n_frames / n_eval` frames long (line 131). Annotation k + 1 comes from read k·(ic + 1) + ic, but period k is scored on read (k + 1)·ie − 1. These agree only when ic + 1 == ie. | 300 readable frames, default 10 evaluations: period 0 is scored on frame 29 against the box selected on frame 27. | Each period's annotation is selected on the frame that period is scored on: periods of `n_frames / n_eval` frames, a box on frame 0 and on the last frame of each period. | not executed | IntervalEvaluator.MainScheduleMisaligned | IntervalEvaluator.AlignedScheduleScoresSameFrame |
