# Benchmark viewer core, modelled in Dafny

This project models the computational core of gym's benchmark viewer,
`gym/benchmarks/viewer/app.py`. The core has four parts:

- **Smoothing.** `smooth_reward_curve` picks a resolution and an odd
  filter window. When the polynomial order is at least the window, it
  returns the raw `(lengths, rewards)`. Otherwise it resamples the rewards
  on an evenly spaced time axis and smooths them.
- **Scoring.** The discrete area under a reward curve (`area_under_curve`)
  and its time-normalised mean (`mean_area_under_curve`).
- **Evaluation score.** `score_evaluation` looks up the benchmark, runs its
  scorer and reduces only the first reported repetition.
- **Task aggregation.** `tasks_from_bmrun_path` walks a benchmark run.
  It loads an `Evaluation` for every `manifest.json` file and groups the
  evaluations into one `Task` per environment id.

Files:

- `wrappers.dfy`: `Result`, used for the exceptions the code can raise.
- `evaluations.dfy`: the `Evaluation` record and the sum of episode lengths.
- `smoothing.dfy`: `smooth_reward_curve`, with `np.cumsum` and `np.linspace`.
- `scoring.dfy`: the area, the mean area and `score_evaluation`.
- `paths.dfy`: `str.endswith` and POSIX `os.path.dirname`.
- `tasks.dfy`: the `Task` class and the aggregation methods, with the
  group-by specification and its lemmas.

Modelling choices:

- Floats are exact `real`s, and episode lengths are `nat`s.
- `np.interp` and `signal.savgol_filter` are function parameters. The only
  constraint on each is the length of its output: `np.interp` returns one
  value per query point (`x_spaced`), and the filter one per input value.
- The benchmark registry is a `map` from benchmark id to scorer function.
- The directory walk is a sequence of `(root, file names)` entries in
  visiting order, and `Evaluation.from_training_dir` is a loader function.
- The exceptions the code can raise are `Failure` results:
  - `np.interp` on an empty or mismatched sample set;
  - `savgol_filter` with a window wider than its input;
  - an unregistered benchmark id;
  - `[0]` on an empty list of repetitions.
- `tasks_from_bmrun_path` is a `method`. Its tasks are objects of class
  `Task`, whose `evaluations` field is appended to in place, held in a
  `map<string, Task>`.
  - `ScanRun` is proved against the function `Group` of the loaded
    evaluations.
  - The properties of `Group` are proved as lemmas.

## Model

| member | source | states |
|---|---|---|
| Evaluations.Evaluation | gym/benchmarks/viewer/app.py:20-29 | the record of one training run: the env id and the six sequences the constructor copies out of the loaded results: per episode its reward, length, type, timestamp and the index of the data file it came from, plus one reset timestamp per data file (no contract; a datatype has none) |
| Evaluations.TotalLength | gym/benchmarks/viewer/app.py:92 | `np.sum(episode_lengths)`; its meaning is given by `TotalLengthAppend` and `TotalLengthZero` (no contract of its own) |
| Evaluations.TotalLengthAppend | gym/benchmarks/viewer/app.py:92 | the total episode length of a concatenation is the sum of the two totals |
| Evaluations.TotalLengthZero | gym/benchmarks/viewer/app.py:92 | the total episode length is zero exactly when every episode has length zero |
| Smoothing.EffectiveResolution | gym/benchmarks/viewer/app.py:45 | the resolution used is at most the number of rewards and at most the requested resolution, and equals one of the two |
| Smoothing.Window | gym/benchmarks/viewer/app.py:46-47 | the window is odd, lies between `resolution / 10` and `resolution / 10 + 1`, and is no wider than a positive resolution |
| Smoothing.WindowCases | gym/benchmarks/viewer/app.py:46-47 | the window is `resolution / 10` when that is odd, and one more when it is even |
| Smoothing.DefaultsFallBackBelowForty | gym/benchmarks/viewer/app.py:42-50 | with the defaults `resolution=1e3` and `polyorder=3`, the curve comes back unsmoothed exactly when there are fewer than 40 rewards |
| Smoothing.SmoothRewardCurve | gym/benchmarks/viewer/app.py:42-60 | when `polyorder >= window` the result is exactly `(lengths, rewards)`; otherwise it succeeds iff both lists have the same nonzero length and the resolution is positive; it fails with the interpolation error iff the lists are empty or of different lengths, and with the filter error iff they match but the requested resolution is 0; on success both output lists have `resolution` points, the time axis is `linspace(0, max_timestep, resolution)`, and the values are the filter, with that window and `polyorder`, applied to the rewards interpolated at the time axis over the sample points `CumSum(lengths)` |
| Smoothing.RunningSum | gym/benchmarks/viewer/app.py:53 | the running sum from an offset, as long as its input; `RunningSumAt` states element `i` as the offset plus the total of the first `i + 1` lengths |
| Smoothing.CumSum | gym/benchmarks/viewer/app.py:53 | `np.cumsum(lengths)`, as long as its input; its meaning is given by `CumSumIsPrefixTotal`, `CumSumNonDecreasing` and `CumSumLast` |
| Smoothing.CumSumIsPrefixTotal | gym/benchmarks/viewer/app.py:53 | element `i` of the cumulative sum is the total length of episodes `0..i` |
| Smoothing.CumSumNonDecreasing | gym/benchmarks/viewer/app.py:53 | the cumulative episode lengths never decrease |
| Smoothing.CumSumLast | gym/benchmarks/viewer/app.py:53 | the last cumulative length is the total length of all episodes |
| Smoothing.Linspace | gym/benchmarks/viewer/app.py:56 | `num` points that start at `start` and, when there are at least two, end exactly at `stop` |
| Smoothing.LinspaceEvenlySpaced | gym/benchmarks/viewer/app.py:56 | consecutive points are `(stop - start) / (num - 1)` apart |
| Smoothing.LinspaceNonDecreasing | gym/benchmarks/viewer/app.py:56 | the points rise from `start` to `stop` when `start <= stop` |
| Smoothing.SmoothFilterArguments | gym/benchmarks/viewer/app.py:49-58 | on the smoothing path the filter gets an odd window wider than the polynomial order and no wider than the resampled curve |
| Smoothing.SmoothedTimeAxis | gym/benchmarks/viewer/app.py:49-60 | when the fallback is not taken and the inputs are valid, the curve is smoothed, and its time axis starts at 0, ends at `max_timestep` and is non-decreasing for a non-negative `max_timestep` |
| Scoring.AreaUnderCurve | gym/benchmarks/viewer/app.py:84-87 | `area_under_curve`; its meaning is given by `AreaIsIndexedSum` against the independent `IndexedArea`, and by `AreaAppend`, `AreaOfZeroLengths` and `AreaBounds` (no contract of its own) |
| Scoring.Zip | gym/benchmarks/viewer/app.py:87 | the pairs stop at the shorter list, and pair `i` is `(lengths[i], rewards[i])` |
| Scoring.AreaIsIndexedSum | gym/benchmarks/viewer/app.py:84-87 | the area is the sum of `lengths[i] * rewards[i]` over `i < min(len(lengths), len(rewards))` |
| Scoring.AreaExample | gym/benchmarks/viewer/app.py:84-87 | the area of lengths `[1, 2, 3]` with unit rewards is 6 |
| Scoring.AreaAppend | gym/benchmarks/viewer/app.py:84-87 | the area of two concatenated curves of matching lengths is the sum of their areas |
| Scoring.AreaOfZeroLengths | gym/benchmarks/viewer/app.py:84-87 | episodes that all have length zero give area zero |
| Scoring.AreaBounds | gym/benchmarks/viewer/app.py:84-87 | rewards in `[lo, hi]` give an area between `lo` and `hi` times the total length |
| Scoring.Divisor | gym/benchmarks/viewer/app.py:92 | the divisor is at least `1e-4` and at least the total length, and equals one of the two, so the mean never divides by zero |
| Scoring.MeanAreaUnderCurve | gym/benchmarks/viewer/app.py:90-92 | the mean times the divisor `max(1e-4, sum(lengths))` is the area |
| Scoring.MeanAreaOfZeroTotal | gym/benchmarks/viewer/app.py:90-92 | with total length zero the mean is `area / 1e-4`, which is 0 |
| Scoring.MeanAreaOfPositiveTotal | gym/benchmarks/viewer/app.py:90-92 | with a positive total length the mean is the area divided by the total length |
| Scoring.MeanAreaIsWeightedAverage | gym/benchmarks/viewer/app.py:90-92 | the mean area is a length-weighted average of the rewards, so it lies within their bounds |
| Scoring.MeanAreaOfConstantReward | gym/benchmarks/viewer/app.py:90-92 | a constant reward is its own mean area |
| Scoring.ScoreEvaluation | gym/benchmarks/viewer/app.py:103-119 | fails with `UnregisteredBenchmark` exactly when the id is not registered; for a registered id it succeeds iff the scorer reports at least one repetition, and the score is the mean area of repetition 0 |
| Scoring.ScoreUsesFirstRepetitionOnly | gym/benchmarks/viewer/app.py:115-119 | two scorers that agree on repetition 0 give the same score, whatever later repetitions hold |
| Scoring.ScoreWithinRewardBounds | gym/benchmarks/viewer/app.py:103-119 | a first repetition with positive total length and rewards in `[lo, hi]` gives a score in `[lo, hi]` |
| Paths.EndsWith | gym/benchmarks/viewer/app.py:160 | `fname.endswith('manifest.json')`: the last `|suffix|` characters are the suffix; used by `ManifestsAreManifestFiles` and `ManifestFilesAreManifests` (no contract of its own) |
| Paths.Dirname | gym/benchmarks/viewer/app.py:164 | `os.path.dirname`, a prefix of its argument; its meaning on the paths that occur here is given by `DirnameOfBareName` and `DirnameOfJoined` |
| Paths.SplitIndex | gym/benchmarks/viewer/app.py:164 | the index just after the last '/', with no '/' at or after it |
| Paths.StripTrailingSlashes | gym/benchmarks/viewer/app.py:164 | a prefix that does not end in '/', where only slashes were removed |
| Paths.DirnameOfBareName | gym/benchmarks/viewer/app.py:164 | the dirname of a file name without '/' is the empty string |
| Paths.DirnameOfJoined | gym/benchmarks/viewer/app.py:164 | the dirname of `root + "/" + name` is `root`, for a bare name and a root not ending in '/' |
| Tasks.DirnameOfFileName | gym/benchmarks/viewer/app.py:164 | the directory the code hands the loader, `os.path.dirname(fname)`; `AsWrittenLoadsEmptyPath` shows it is always `""` for walked names (no contract of its own) |
| Tasks.WalkRoot | gym/benchmarks/viewer/app.py:164 | the corrected directory, the walk root; `CorrectedLoadsManifestDirectory` shows it is the dirname of the manifest's full path (no contract of its own) |
| Tasks.ManifestsIn | gym/benchmarks/viewer/app.py:159-161 | the manifests among one directory's file names, in order; its meaning is given by `ManifestsInAreManifestFiles` and `ManifestFileInEntry` (no contract of its own) |
| Tasks.Manifests | gym/benchmarks/viewer/app.py:158-161 | the manifests of the whole walk, in visiting order; its meaning is given by `ManifestsAreManifestFiles` and `ManifestFilesAreManifests` (no contract of its own) |
| Tasks.LoadAll | gym/benchmarks/viewer/app.py:164-166 | one evaluation per manifest, loaded from the directory chosen for it; its meaning is given by `LoadAllAppend` (no contract of its own) |
| Tasks.LoadAllAppend | gym/benchmarks/viewer/app.py:158-166 | each manifest is loaded once and in order, whatever came before it: loading two manifest lists one after the other gives the two loads concatenated |
| Tasks.AddEvaluation | gym/benchmarks/viewer/app.py:168-175 | one step of the group-by: append to the group of the evaluation's env id, creating it if absent; `TotalAddEvaluation` states its effect on the count (no contract of its own) |
| Tasks.Group | gym/benchmarks/viewer/app.py:157-177 | the groups after adding the evaluations in order; its meaning is given by `GroupIsByEnvId`, `GroupKeysAndMembers`, `GroupTotal`, `GroupOnlyAppends` and `GroupIgnoresOrder` (no contract of its own) |
| Tasks.Task.constructor | gym/benchmarks/viewer/app.py:63-66 | a task holds the given env id and evaluation list |
| Tasks.AddToTask | gym/benchmarks/viewer/app.py:168-175 | finds or creates the task under the evaluation's env id and appends to it; existing keys keep their task objects; every task stays under its own env id; the new contents are the old groups with the evaluation added |
| Tasks.ScanEntry | gym/benchmarks/viewer/app.py:159-175 | the inner loop adds the evaluations of the manifests of one directory, in order |
| Tasks.ScanRun | gym/benchmarks/viewer/app.py:157-177 | the tasks hold exactly the group-by of the loaded manifests; the keys are the env ids loaded; the total count is the number of manifest files; every task is newly created and sits under its own env id |
| Tasks.TasksFromRunPath | gym/benchmarks/viewer/app.py:153-177 | the aggregation as written, with the loader given `os.path.dirname(fname)` |
| Tasks.TasksFromRunPathCorrected | gym/benchmarks/viewer/app.py:153-177 | the aggregation with the loader given the directory the manifest was found in |
| Tasks.GroupIsByEnvId | gym/benchmarks/viewer/app.py:168-175 | the group keys are the env ids that occur, and each group is exactly the evaluations with that id, in their original order |
| Tasks.GroupKeysAndMembers | gym/benchmarks/viewer/app.py:168-175 | no group is empty, each holds only evaluations of its own id, and every evaluation is in the group of its id |
| Tasks.GroupTotal | gym/benchmarks/viewer/app.py:168-175 | the groups together hold as many evaluations as were added: none lost, none duplicated |
| Tasks.TotalAddEvaluation | gym/benchmarks/viewer/app.py:170-175 | adding one evaluation raises the total by one, whether it joins a group or starts a new one |
| Tasks.GroupOnlyAppends | gym/benchmarks/viewer/app.py:170-175 | later evaluations only append: every group of a prefix is a prefix of the same group afterwards |
| Tasks.WithEnvAppend | gym/benchmarks/viewer/app.py:170-175 | the evaluations of one env id in a concatenation are those of the first part followed by those of the second |
| Tasks.GroupIgnoresOrder | gym/benchmarks/viewer/app.py:158-175 | the same evaluations in any visiting order give the same keys, and each group the same multiset |
| Tasks.ManifestsAreManifestFiles | gym/benchmarks/viewer/app.py:158-161 | only walked files whose names end in `manifest.json` are loaded |
| Tasks.ManifestFilesAreManifests | gym/benchmarks/viewer/app.py:158-161 | every walked file whose name ends in `manifest.json` is loaded |
| Tasks.AsWrittenLoadsEmptyPath | gym/benchmarks/viewer/app.py:164-166 | as written, with the bare names a walk lists, every manifest loads from the empty path |
| Tasks.AsWrittenAtMostOneTask | gym/benchmarks/viewer/app.py:164-177 | as written, at most one task comes out, however many runs the walk holds |
| Tasks.CorrectedLoadsManifestDirectory | gym/benchmarks/viewer/app.py:164-166 | corrected, each manifest loads from the dirname of its full path `root + "/" + fname` |
| Tasks.TwoRunsExample | gym/benchmarks/viewer/app.py:158-177 | two runs of different environments in two directories give one task as written and two corrected |

## Left out

- The Flask application and its routes (`index`, `compare`, `view_tasks`, lines 12, 122-150 and 180-181): web plumbing and HTML assembly.
- `Task.to_svg` (lines 68-81): plotting with matplotlib into an in-memory buffer.
- `os.walk`, `os.listdir` and `monitoring.load_results` (lines 33, 124 and 158): filesystem I/O. The walk is a parameter, a sequence of `(root, file names)` entries. The loader is a function parameter from directory to `Evaluation`.
- `Evaluation.__init__` (lines 20-29): a dictionary lookup of a loaded results file. Its fields are the `Evaluation` datatype. The model assumes that every load succeeds: a failing `monitoring.load_results` (a missing or malformed results directory) and a missing key (`KeyError`) are not modelled. In the input of the finding below, the loader is asked to read `""`, which in the running program would most likely fail in exactly this way.
- `print(training_dir)` (line 165): a debug side effect.
- `print(evaluation.score())` (line 174): `Evaluation` defines no `score` method, so this line would raise `AttributeError` at the first manifest. The model treats it as debug output to be removed and leaves it out. The aggregation is modelled as if only line 175 followed line 172.
- Smoothing.SmoothRewardCurve: the values of `np.interp` and `signal.savgol_filter` (lines 57-58) are floating-point library numerics. They are function parameters, constrained only in output length, so the contract says which arguments they get but not what values they return. Their error preconditions are modelled as `Failure` results.
- Smoothing.SmoothRewardCurve: the default `resolution=1e3` is a float in Python. The model takes a `nat`. The defaults are `DEFAULT_RESOLUTION` = 1000 and `DEFAULT_POLYORDER` = 3, used in `DefaultsFallBackBelowForty`. With more than 1000 rewards, `min(len(rewards), 1e3)` is the float `1e3`. numpy 1.12 to 1.17 accept a float count in `np.linspace` with a deprecation warning, and from 1.18 on it raises `TypeError`, so with more than 1000 rewards the default call fails on a current numpy. That typing is not modelled.
- Scoring: floats are exact reals, so rounding in the sums and the division is not modelled.
- `registry.benchmark_spec` and the benchmark's own `score_evaluation` (lines 104-113) are foreign calls. The registry is a map, so a missing id is the `UnregisteredBenchmark` failure rather than an exception. A scorer is a function of the evaluation. `BENCHMARK_ID` (line 17) is a parameter.
- `BenchmarkRun` and `BenchmarkScoreCache` (lines 37-39 and 95-100): data holders that none of the modelled code uses.
- The module-level globals (lines 16-17): line 17 derives `BENCHMARK_ID` from `BENCHMARK_DATA_PATH` as `os.path.dirname('/tmp/AtariExploration40M/')`, which is `'/tmp/AtariExploration40M'`. `score_evaluation` passes that fixed value to `registry.benchmark_spec` at line 104, and the model takes it as the `benchmarkId` parameter of `Scoring.ScoreEvaluation`. A path-shaped id is unlikely to be a registered benchmark id, so the real lookup probably takes the `UnregisteredBenchmark` branch. `BENCHMARK_DATA_PATH` is otherwise used only by the `view_tasks` route.
- Python dictionary iteration order is not modelled. The result is a `map`, and `view_tasks` sorts its items anyway.

## Findings

| source | as written | input that shows it | evidently intended | confidence | as-written member | corrected member |
|---|---|---|---|---|---|---|
| gym/benchmarks/viewer/app.py:164 | `training_dir = os.path.dirname(fname)`, where `fname` is a bare file name from `os.walk` | a run with `run/a/a.manifest.json` (env Pong-v0) and `run/b/b.manifest.json` (env Breakout-v0): both manifests load from `""`, so every evaluation is the one loaded from `""`, and there is only ever one task | `os.path.dirname(os.path.join(root, fname))`, that is `root`: each manifest loads its own training directory | high; not executed | Tasks.TasksFromRunPath, Tasks.AsWrittenLoadsEmptyPath, Tasks.AsWrittenAtMostOneTask, Tasks.TwoRunsExample | Tasks.TasksFromRunPathCorrected, Tasks.CorrectedLoadsManifestDirectory |
