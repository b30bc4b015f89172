# OCV decomposition engine: a Dafny model

PyBEP decomposes a measured battery open-circuit-voltage (OCV) curve into a
cathode and an anode half-cell open-circuit-potential (OCP) curve. For every
pair of candidate half-cells it trims a window off each curve, resamples both
windows on 1001 points and scores how far "cathode minus anode" lies from the
battery's OCV. A global optimizer chooses the trims that minimise the score.
The search keeps the best pair of each iteration and then the best of those.
For the winner it rebuilds the integer window bounds, the calculated OCV and
the normalised state-of-charge (SOC) axes. Two loaders read the half-cell
curves from directories of `.txt` files.

The engine comes in three variants, and the model covers all three:

- the 4-parameter one in `battery_ocv_decomposition/src/optimization_functions.py`;
- the 6-parameter one, which stretches the x axis by factors `a` and `c`;
- the 6-parameter one in `calculations.py`, which evaluates each curve at the stretched points instead.

The modules follow the program's structure:

| module | file | what it holds |
|---|---|---|
| `Outcomes` | outcomes.dfy | `Option`, `Result` and one `Error` per exception the engine can raise |
| `Numbers` | numbers.dfy | Python `int()`, numpy elementwise arithmetic, `np.linspace`, `min`/`max`, mean of squares |
| `OrderedDict` | ordered_dict.dfy | insertion-ordered Python dictionaries: lookup, `d[k] = v`, and what a loop of assignments leaves |
| `Windows` | windows.dfy | the trim fractions turned into slice bounds `e, f` (anode, 30 %) and `g, h` (cathode, 15 %) |
| `Objective` | objective.dfy | windows for the three stretch conventions, the 1001-point grids, and the weighted RMSD score |
| `HalfCells` | half_cells.dfy | both `add_half_cell_data` loaders |
| `Reconstruction` | reconstruction.dfy | best parameters, full-grid sizes and normalised SOC axes for the winning pair |
| `Search` | search.dfy | one optimisation per pair, the cathode-major pass, the per-iteration and overall minimum, and the ID guard |

Floats are modelled as `real`. The spline built by `interp1d`, the `1 / np.gradient` inverse derivative and
`sqrt` are function-valued fields of `Objective.Numerics`. They are left
uninterpreted, so every property holds whatever those functions compute.
`differential_evolution` is an oracle. It gets the iteration and the two
candidate IDs and returns parameters inside the search box. The pair's score
is the objective evaluated at those parameters. `joblib.Parallel` is an
order-preserving sequential map. Each Python exception is an `Err` carrying
its `Error`.

Where the code and the repository's written description differ, the model
follows the code. The description says an empty set of candidates yields no
result. The code calls `min` on an empty list, which raises `ValueError`; the
model returns `Err(EmptyMinimum)`.

## Model

| member | source | states |
|---|---|---|
| Numbers.Trunc | battery_ocv_decomposition/src/optimization_functions.py:84-88 | Python `int()` rounds toward zero: for a non-negative product the result is the largest integer not above it, for a negative one the smallest not below it |
| Numbers.Linspace | battery_ocv_decomposition/src/optimization_functions.py:99 | `np.linspace(lo, hi, num)` has `num` samples, starts at `lo`, ends at `hi` and runs monotonically between them, ascending or descending with the ends |
| Numbers.LinspaceScale | battery_ocv_decomposition/optimization_functions.py:65-67 | resampling a stretched axis between its stretched ends gives the unstretched grid stretched by the same factor |
| Numbers.SeqMin | battery_ocv_decomposition/src/optimization_functions.py:279 | `min(x)` is one of the samples and no sample lies below it |
| Numbers.SeqMax | battery_ocv_decomposition/src/optimization_functions.py:280 | `max(x)` is one of the samples and no sample lies above it |
| Numbers.LinspaceExtremes | battery_ocv_decomposition/src/optimization_functions.py:279-283 | the minimum and maximum of a grid of two or more points are its two ends, in either direction |
| Numbers.SpanIsRange | battery_ocv_decomposition/src/optimization_functions.py:279-280 | `max(x - min(x))` is the distance between the largest and the smallest sample, never negative, and zero exactly when all samples are equal |
| Numbers.LinspaceSpan | battery_ocv_decomposition/src/optimization_functions.py:279-283 | the span the normalisation divides by is the distance between the grid's two ends |
| Numbers.SumSqNeg | battery_ocv_decomposition/optimization_functions.py:81-83 | negating a residual leaves its sum of squares unchanged (by induction over the samples) |
| Numbers.MeanSqNeg | battery_ocv_decomposition/optimization_functions.py:81-83 | negating a residual leaves the mean square inside its RMSD unchanged |
| Windows.Clamp | battery_ocv_decomposition/src/optimization_functions.py:90-94 | the clamped upper bound never exceeds the sample count and is the unclamped bound whenever that already fits |
| Windows.ObjectiveBounds | battery_ocv_decomposition/src/optimization_functions.py:84-94 | the objective's slice starts at `int(p * n * trim)` and ends at `n - int(p' * n * trim)`, or at `n` when that would exceed the sample count |
| Windows.StartInRange | battery_ocv_decomposition/src/optimization_functions.py:84-88 | for a fraction in [0, 1], `e` lies in `0 .. floor(0.3 n)` and `g` in `0 .. floor(0.15 n)` |
| Windows.EndInRange | battery_ocv_decomposition/src/optimization_functions.py:85-94 | for a fraction in [0, 1], `f` lies in `n - floor(0.3 n) .. n` and `h` in `n - floor(0.15 n) .. n`, so the clamp never fires |
| Windows.ClampIsIdle | battery_ocv_decomposition/src/optimization_functions.py:237-245 | the unclamped bounds recomputed for the winner equal the clamped bounds the objective scored |
| Windows.WindowNonEmpty | battery_ocv_decomposition/src/optimization_functions.py:84-103 | for in-box fractions and a non-empty curve, `e < f` and `g < h`, so the first and last window samples exist |
| Windows.AnodeWindowValid | battery_ocv_decomposition/optimization_functions.py:53-59 | the 6-parameter anode bounds `e, f` stay within their ranges and form a non-empty slice |
| Windows.CathodeWindowValid | battery_ocv_decomposition/calculations.py:40-47 | the point-stretch cathode bounds `g, h` stay within their ranges and form a non-empty slice |
| Windows.WindowKeepsTwo | battery_ocv_decomposition/src/optimization_functions.py:96-103 | a curve of two or more samples keeps at least two in its window, for either trim |
| Objective.PlainWindow | battery_ocv_decomposition/src/optimization_functions.py:96-103 | the 4-parameter window pairs sample `e + i` with the curve's own value there |
| Objective.AxisWindow | battery_ocv_decomposition/optimization_functions.py:64-72 | axis stretch: window sample `i` pairs `a * x[e + i]` with the curve evaluated at the unscaled `x[e + i]` |
| Objective.PointWindow | battery_ocv_decomposition/calculations.py:49-55 | point stretch: window sample `i` pairs the unscaled `x[e + i]` with the curve evaluated at `a * x[e + i]` |
| Objective.UnitStretch | battery_ocv_decomposition/calculations.py:49-55 | with a stretch factor of 1 both stretch conventions build exactly the unstretched window |
| Objective.AnodeWindow | battery_ocv_decomposition/src/optimization_functions.py:84-99 | the anode window is non-empty exactly when the anode curve is |
| Objective.CathodeWindow | battery_ocv_decomposition/src/optimization_functions.py:86-103 | the cathode window is non-empty exactly when the cathode curve is |
| Objective.WindowGrid | battery_ocv_decomposition/calculations.py:51-55 | the grid spans `x[e] .. x[f-1]` unscaled under point stretch and no stretch, and is that grid scaled by the factor under axis stretch |
| Objective.AnodeGridEnds | battery_ocv_decomposition/calculations.py:49-51 | for in-box parameters, the anode grid spans the ends of a valid anode window |
| Objective.CathodeGridEnds | battery_ocv_decomposition/calculations.py:53-55 | for in-box parameters, the cathode grid spans the ends of a valid cathode window |
| Objective.Evaluate | battery_ocv_decomposition/src/optimization_functions.py:82-118 | the objective yields a score when both curves have samples and the battery SOC and OCV have 1001 points, and fails with the error numpy raises otherwise; spline rejections are not modelled (see Left out) |
| Objective.CalculatedAt | battery_ocv_decomposition/src/optimization_functions.py:98-105 | calculated OCV point `i` is the cathode window's interpolant at the `i`-th of 1001 evenly spaced points from that window's first x to its last, minus the anode window's interpolant at the anode window's `i`-th such point |
| Objective.GridDifferenceAt | battery_ocv_decomposition/src/optimization_functions.py:99-105 | the same pointwise formula holds for any two non-empty windows: `r(x_c)[i] - w(x_a)[i]` with `x[i] = x_first + i * (x_last - x_first) / 1000` |
| Objective.ScoreOfCalculated | battery_ocv_decomposition/src/optimization_functions.py:105-117 | a score depends on the two resampled half cells only through their difference. It is `battery` times the RMSD of calculated minus measured OCV (`battery + anode + cathode` times it in the 6-parameter variants), plus `derivative_inverse` times the inverse-derivative RMSD |
| Objective.EvaluateValue | battery_ocv_decomposition/src/optimization_functions.py:82-118 | for non-empty curves and a 1001-point SOC and OCV, the objective succeeds and its value is that score of the calculated OCV |
| Objective.ResidualsCoincide | battery_ocv_decomposition/optimization_functions.py:74-76 | `anode_calculated - w(x_a)` equals the battery residual sample by sample, and `cathode_calculated - r(x_c)` is its negation |
| Objective.StretchedScoreCollapses | battery_ocv_decomposition/calculations.py:57-67 | the three RMSD terms coincide, so the score is `(battery + anode + cathode)` times the battery RMSD plus the derivative term |
| Objective.VariantsAgree | battery_ocv_decomposition/optimization_functions.py:81-84 | with zero anode and cathode weights, the 6-parameter score equals the 4-parameter score over the same resampled curves |
| Objective.DerivativeUnweighted | battery_ocv_decomposition/src/optimization_functions.py:114-117 | with `derivative_inverse = 0` the score does not depend on the inverse-derivative function at all |
| Objective.BatteryOnly | battery_ocv_decomposition/optimization_functions.py:81-84 | with weights (1, 0, 0, 0) the score is the battery RMSD alone |
| Objective.UnstretchedScoreWithoutDerivative | battery_ocv_decomposition/src/optimization_functions.py:114-117 | with `derivative_inverse = 0` the 4-parameter score is `battery * sqrt(mean((calc - OCV)^2))` |
| Objective.UnstretchedWithoutDerivative | battery_ocv_decomposition/src/optimization_functions.py:105-117 | the same for a full evaluation: it succeeds, and its value is the weighted battery RMSD of the calculated OCV |
| OrderedDict.Find | battery_ocv_decomposition/src/optimization_functions.py:233-234 | a key is found exactly when the dictionary holds it, at its first position |
| OrderedDict.Get | battery_ocv_decomposition/src/optimization_functions.py:233-234 | `dict.get` returns `None` exactly for a missing key and otherwise the value stored under it |
| OrderedDict.Put | battery_ocv_decomposition/add_curves.py:56 | `d[k] = v` overwrites an existing key in place or appends a new one; other entries, their order and key distinctness are kept |
| OrderedDict.PutKeepsOthers | src/OCV_GUI_module/add_curves.py:62 | assigning one key changes neither the presence nor the value of any other key |
| OrderedDict.FirstIndex | src/OCV_GUI_module/add_curves.py:32-62 | the loop step at which a key is first assigned, or past the end when it never is |
| OrderedDict.FirstIndexSnoc | src/OCV_GUI_module/add_curves.py:32-62 | a further assignment moves no key's first step; a key new to the loop first occurs at the end |
| OrderedDict.AssignStepOrder | src/OCV_GUI_module/add_curves.py:62 | after one more assignment the entries still stand in the order their keys were first assigned, because `d[k] = v` keeps an old key in place and appends a new one last |
| OrderedDict.AssignStep | src/OCV_GUI_module/add_curves.py:32-62 | one more assignment keeps the dictionary equal to what assigning all keys so far in order leaves: every assigned key present once, the last value winning, and the entries in order of each key's first assignment |
| HalfCells.TxtFiles | battery_ocv_decomposition/add_curves.py:26 | exactly the listed names ending in `.txt` are kept |
| HalfCells.TxtFilesConcat | battery_ocv_decomposition/add_curves.py:26 | the filter commutes with joining listings, so the kept names appear in the order `os.listdir` gave them (by induction) |
| HalfCells.Width | battery_ocv_decomposition/add_curves.py:37 | `zip(*rows)` yields as many tuples as the shortest row is long |
| HalfCells.Columns | battery_ocv_decomposition/add_curves.py:37 | unpacking into `x_values, y_values` succeeds exactly when the rows zip into two columns, and yields the first and second column |
| HalfCells.Reverse | battery_ocv_decomposition/add_curves.py:42-43 | `s[::-1]` holds the samples in the opposite order |
| HalfCells.ReversePermutes | battery_ocv_decomposition/add_curves.py:42-43 | reversal keeps every sample exactly as often as before (by induction) |
| HalfCells.ReverseOfDecreasing | battery_ocv_decomposition/add_curves.py:40-43 | reversing a strictly decreasing x column gives a strictly increasing one |
| HalfCells.Orient | battery_ocv_decomposition/add_curves.py:40-43 | a strictly decreasing x column is reversed together with y, giving increasing x; any other curve is stored unchanged |
| HalfCells.OrientKeepsPairs | src/OCV_GUI_module/add_curves.py:44-47 | orienting keeps the (x, y) pairing: the pairs after are the pairs before, as a multiset |
| HalfCells.OrientIdempotent | src/OCV_GUI_module/add_curves.py:44-47 | orienting an already oriented curve changes nothing |
| HalfCells.ReadCurve | battery_ocv_decomposition/add_curves.py:37-46 | a file yields a curve exactly when it zips into two columns, and otherwise raises for that file |
| HalfCells.ReadCurveColumns | battery_ocv_decomposition/add_curves.py:37-51 | the stored `x_values` and y samples are the first and second column, read bottom-up when x strictly decreases and top-down otherwise |
| HalfCells.NumberFiles | battery_ocv_decomposition/add_curves.py:29-56 | the dictionary has one entry per `.txt` file, keyed 1, 2, ... in listing order, each holding its own ID and curve; the first unreadable file's error is raised |
| HalfCells.LoadNumbered | battery_ocv_decomposition/add_curves.py:19-58 | a missing folder raises before anything else; otherwise the result is the numbered dictionary of the folder's `.txt` files |
| HalfCells.LastDot | src/OCV_GUI_module/add_curves.py:56 | the position `splitext` splits at is the last dot of the name |
| HalfCells.TxtStem | src/OCV_GUI_module/add_curves.py:56 | the stem of a `.txt` name is the name minus `.txt`, unless only dots precede the extension, when it is the whole name |
| HalfCells.StemInjective | src/OCV_GUI_module/add_curves.py:55-62 | different `.txt` names with something besides dots before the extension get different keys |
| HalfCells.StemsCanCollide | src/OCV_GUI_module/add_curves.py:55-62 | `..txt` and `..txt.txt` share the stem `..txt`, so the named dictionary can have fewer entries than files |
| HalfCells.Join | src/OCV_GUI_module/add_curves.py:19 | POSIX `os.path.join(cwd, name)` is the name itself when absolute, and otherwise starts with `cwd` and ends with the name |
| HalfCells.NameFiles | src/OCV_GUI_module/add_curves.py:32-62 | the dictionary is what assigning each file's dataset to its stem in listing order leaves; the first unreadable file's error is raised |
| HalfCells.LoadNamed | src/OCV_GUI_module/add_curves.py:19-64 | the directory is resolved against the working directory and must exist; each entry's `ID_number` equals its key |
| Reconstruction.ReportedBoundsAreScored | battery_ocv_decomposition/src/optimization_functions.py:237-245 | the reported `e, f, g, h` are the window the objective scored, valid for non-empty curves; the tuple has six entries exactly for the stretch variants |
| Reconstruction.FullCountSign | battery_ocv_decomposition/src/optimization_functions.py:257-258 | `1001 + e + (1001 - f)` is never negative for curves of at most 2002 samples; with zero trims it is negative exactly beyond 2002 |
| Reconstruction.FlatSpan | battery_ocv_decomposition/src/optimization_functions.py:279-280 | the SOC normalisation divides by zero exactly when the window's first and last x coincide |
| Reconstruction.OriginWidth | battery_ocv_decomposition/src/optimization_functions.py:279-283 | for a window whose ends differ, the origin is the smaller end and the width is the non-zero distance between the ends |
| Reconstruction.Reconstruct | battery_ocv_decomposition/src/optimization_functions.py:236-283 | the reconstruction succeeds exactly when both curves have samples, both full-grid counts are non-negative and (outside point stretch) both windows have distinct ends; otherwise it fails with `EmptyCurve`, `NegativeSampleCount` or `ZeroSpan`. On success it reports the scored bounds, the calculated OCV and each side's grid and OCP; only the non-point-stretch variants build SOC axes |
| Reconstruction.WindowSocIsUnit | battery_ocv_decomposition/src/optimization_functions.py:279-280 | the normalised window axis is `i / 1000` for a rising window and `(1000 - i) / 1000` for a falling one, so it runs from 0 to 1 |
| Reconstruction.FullSocExtendsWindow | battery_ocv_decomposition/src/optimization_functions.py:282-283 | the full axis has `1001 + e + (1001 - f)` points, each offset by the window minimum and divided by the window span |
| Reconstruction.AnodeAxes | battery_ocv_decomposition/optimization_functions.py:193-219 | a successful axis-stretch or plain reconstruction gives the anode a unit window SOC and a full SOC on the window's scale |
| Reconstruction.CathodeAxes | battery_ocv_decomposition/src/optimization_functions.py:259-278 | the same for the cathode, with its full grid of `1001 + g + (1001 - h)` points |
| Reconstruction.ZeroStretchFlat | battery_ocv_decomposition/optimization_functions.py:194-197 | an axis stretch of 0 collapses the window to a single x, so its grid is flat |
| Reconstruction.ReconstructSucceeds | battery_ocv_decomposition/src/optimization_functions.py:236-283 | curves of 2 to 2002 strictly increasing samples with positive stretch factors always reconstruct |
| Reconstruction.ZeroStretchFails | battery_ocv_decomposition/optimization_functions.py:209-219 | an in-box axis stretch of 0 on either side makes the reconstruction fail |
| Reconstruction.LongAnodeFails | battery_ocv_decomposition/src/optimization_functions.py:257-258 | with zero trims, an anode of more than 2002 samples makes the full-grid count negative and the reconstruction fails |
| Search.Optimize | battery_ocv_decomposition/src/optimization_functions.py:121-175 | a pair result carries the IDs it was invoked with and in-box parameters, exists exactly when the objective can be evaluated, and its RMSD is the objective at those parameters |
| Search.Tasks | battery_ocv_decomposition/src/optimization_functions.py:216-221 | the pass has one job per cathode-anode pair, `|C| * |A|` in all, each drawn from the two dictionaries |
| Search.TasksAt | battery_ocv_decomposition/src/optimization_functions.py:216-221 | job `i * |A| + j` pairs cathode `i` with anode `j`: cathode-major, anode-minor order (by induction) |
| Search.MapResults | battery_ocv_decomposition/calculations.py:89-94 | the order-preserving map succeeds exactly when every job does, with result `k` from job `k`; otherwise the first failing job's error is raised |
| Search.PassOrder | battery_ocv_decomposition/src/optimization_functions.py:209-221 | a successful pass has `|C| * |A|` results, and result `i * |A| + j` belongs to cathode `i` and anode `j` and carries their RMSD |
| Search.PassDrawn | battery_ocv_decomposition/src/optimization_functions.py:170-175 | every result of a pass has IDs that are keys of the two dictionaries and carries the optimizer's in-box point for that pair in that iteration |
| Search.ArgMin | battery_ocv_decomposition/src/optimization_functions.py:223-224 | `min(key=RMSD)` picks a result with the least RMSD, strictly below every earlier one: the first on ties |
| Search.FirstMin | battery_ocv_decomposition/calculations.py:98 | `min` of a non-empty list is its first least-RMSD result; of an empty list it raises |
| Search.PassSucceeds | battery_ocv_decomposition/src/optimization_functions.py:209-221 | over two non-empty dictionaries, a pass succeeds in every iteration exactly when the measured curve has 1001 points and every half-cell curve has samples; it then has `|C| * |A| > 0` results |
| Search.PassOutcomeIndependent | battery_ocv_decomposition/src/optimization_functions.py:209-221 | whether a pass fails is the same in every iteration: the optimizer's point changes between iterations, but whether the objective can score a pair does not depend on it |
| Search.ScorablePass | battery_ocv_decomposition/src/optimization_functions.py:209-221 | when every pair can be scored, every job of the pass succeeds |
| Search.PassScorable | battery_ocv_decomposition/src/optimization_functions.py:209-221 | a successful pass over non-empty dictionaries scored every cathode and every anode, so all their curves have samples |
| Search.PairScorable | battery_ocv_decomposition/src/optimization_functions.py:209-221 | a successful pass scored pair `(i, j)`, so both its curves have samples and the measured curve has 1001 points |
| Search.PassesSucceed | battery_ocv_decomposition/src/optimization_functions.py:206-221 | every iteration's pass succeeds with at least one result exactly when there is an iteration, at least one pair and every pair is scorable; with no pair the first pass is empty |
| Search.PassesChosen | battery_ocv_decomposition/src/optimization_functions.py:223-228 | first minima taken pass by pass, and then over those picks, are what the search chose |
| Search.SelectBest | battery_ocv_decomposition/src/optimization_functions.py:206-228 | it succeeds exactly when there is an iteration and every pass succeeds with at least one result. Then there is one best per iteration, each the first minimum of its pass, and the overall best is the first minimum of those, lies below every result of every pass and is one of them. Otherwise a pass's error or `EmptyMinimum` is raised, and the first pass's error comes first |
| Search.BestOfAll | battery_ocv_decomposition/src/optimization_functions.py:227-228 | the overall best's RMSD is at most that of every result of every iteration |
| Search.BestFromPass | battery_ocv_decomposition/src/optimization_functions.py:223-228 | the overall best is a result some iteration's pass actually produced |
| Search.SearchPairs | battery_ocv_decomposition/optimization_functions.py:160-177 | it succeeds exactly when there is an iteration, both dictionaries are non-empty, the measured SOC and OCV have 1001 points and every half-cell curve has samples. No iterations or an empty dictionary raise `EmptyMinimum`, and a failing first pass raises its error. On success the bests and the overall best are the first minima of the passes |
| Search.Rebuild | battery_ocv_decomposition/src/optimization_functions.py:233-236 | the guarded branch is skipped exactly when one of the winning IDs is missing from its dictionary |
| Search.RebuildScoredPair | battery_ocv_decomposition/optimization_functions.py:182-191 | when both IDs are found, the reconstruction runs on the very curves stored under them |
| Search.WinnerRebuilds | battery_ocv_decomposition/src/optimization_functions.py:230-236 | for a winner chosen from dictionaries with distinct keys, both IDs are found again, and the reconstruction fails at most with `NegativeSampleCount` or `ZeroSpan`; it cannot fail under point stretch, nor for well-sampled curves with positive stretch factors |
| Search.WinnerReconstructs | battery_ocv_decomposition/src/optimization_functions.py:236-283 | the reconstruction of a pair with non-empty curves at the optimizer's point fails at most on the sample count or a zero-width window; it cannot fail under point stretch, nor for curves of 2 to 2002 strictly increasing samples with positive stretch factors |
| Search.Run | battery_ocv_decomposition/calculations.py:83-115 | the whole search: its error cases, the first-minimum bests, a winner drawn from the dictionaries, the ID guard always passing, and the winner's reconstruction. When the search itself can succeed, the run fails at most in the reconstruction, with `NegativeSampleCount` or `ZeroSpan`. It always succeeds under point stretch, and for strictly increasing curves of 2 to 2002 samples with positive stretch factors. The two JSON-writing twins of the 4-parameter variant repeat the same steps |

## Left out

- The tkinter GUIs, matplotlib plotting, `print` output and JSON writing (`json.dump`, `.tolist()`) are I/O and are not modelled. The JSON-writing twins of the 4-parameter search differ from it only in that writing, so `Search.Run` covers them.
- Reading files and parsing floats is I/O. A file is given by the numbers on each of its lines, and a directory by its listing in `os.listdir` order. Folder existence is membership in a map.
- The battery loader (`add_battery.py`), the module-level scripts with hard-coded paths, and `setup.py` are thin wrappers or packaging, not engine logic.
- `calculate_derivative_and_inverse` in the 4-parameter file is never called, so it is not modelled.
- The cubic spline of `interp1d`, `np.gradient` with its reciprocal, and `sqrt` are foreign floating-point numerics. They are uninterpreted functions, and `np.linspace` is exact real arithmetic.
- HalfCells.ReadCurve: the model does not reject curves that `interp1d(kind='cubic')` rejects, such as fewer than four samples or repeated x values. The same holds for window slices inside the objective. These failures belong to the foreign spline.
- Objective.Evaluate: `interp1d(kind='cubic')` on the window slices (battery_ocv_decomposition/src/optimization_functions.py:98-103) raises for fewer than four samples or repeated x values. The model scores such windows, so it succeeds on some inputs where the source fails; those failures belong to the foreign spline. For an empty slice `interp1d` raises `ValueError` before `[0]` could raise `IndexError`; both are `EmptyCurve` here.
- HalfCells.Join: models POSIX `os.path.join`. Windows drive letters and backslash separators, which the scripts' hard-coded paths use, are not modelled.
- Windows.StartInRange: floats are modelled as reals, so a rounding error in `p * n * 0.3` that moves a bound by one index is not modelled.
- NaN and infinity are not modelled.
- Reconstruction.Reconstruct: a window whose first and last x coincide fails with `ZeroSpan`. numpy would produce NaN arrays after a divide-by-zero warning.
- Objective.DerivativeUnweighted: with weight 0 the derivative term contributes 0 in the model. In Python `0 * NaN` is NaN when a gradient is zero.
- `differential_evolution` is stochastic, and its internals are left out. It is an oracle whose only promise is parameters inside the bounds box. The model does not claim that its result is a true minimum.
- Search.Run: guaranteed success under the axis stretch covers only strictly increasing curves of 2 to 2002 samples (`Search.WellSampled`). The loaders reverse x only when it strictly decreases and bound no sample count, so a loaded curve need not meet this, and `Reconstruction.LongAnodeFails` shows a longer one can fail.
- `joblib.Parallel` concurrency and its `timeout=120` are left out.
- Search.MapResults: when several jobs fail, the model raises the first failure in input order. Which error joblib re-raises is not specified.
- The 6-parameter and point-stretch variants plot and print rather than return. The model returns what they compute.
- When a winning ID is missing, the source later reads names bound only inside the guarded branch. The model gives this path an explicit `NotReconstructed` outcome rather than a result. `Search.Run` proves the path never occurs, because the winning IDs always come from the dictionaries.
