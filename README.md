# Real-time z-score anomaly detection, modelled in Dafny

The system watches a stream of numbers. Every new value is appended to the
history. Once the history is longer than `window_size`, the value is scored
against the trailing window of the history, which already contains the value.
The window's arithmetic mean and population standard deviation give the
z-score `(x - mean) / std_dev`, or 0 when the standard deviation is 0. A value
whose |z| exceeds `z_threshold` is recorded as an anomaly. The detector rejects
a non-positive window size or threshold with `ValueError` before it creates any
state. The stream is a generator: it raises `ValueError` for a non-positive
duration or interval at the first `next()`, before it yields any value.

The project models that logic from `main.py`:

- `results.dfy` (`Results`) holds `Option`, `Result` and the `ValueError` of
  the argument checks.
- `reals.dfy` (`Reals`) holds `Abs` and facts about products and squares that
  the other proofs use.
- `statistics.dfy` (`Statistics`) models the trailing window `data[-k:]`,
  `moving_average`, `standard_deviation`, `z_score` and the anomaly test, with
  their lemmas.
- `stream.dfy` (`Stream`) models the argument check of `simulate_data_stream`.
- `detection.dfy` (`Detection`) models the argument check of
  `detect_anomalies_with_visualization`. It also models the per-tick
  bookkeeping of `update`, as the class `Detector`:
  - the fields `timePoints`, `dataPoints` and `anomalyPoints` are the source's
    `time_points`, `data_points` and `anomaly_points`;
  - `Update` appends to them;
  - `Update` returns the row that the source hands to its data table.

Modelling choices:

- **Values are mathematical reals.**
- **Square root.** numpy's `sqrt` enters as a parameter `root: real -> real`.
  The predicate `IsSqrt` constrains `root` to be the non-negative square root.
  The detector's class invariant requires `IsSqrt(root)`.
- **Empty windows.** numpy returns not-a-number for the mean or deviation of an
  empty slice and does not raise. This is modelled as `None`.
- **The anomaly list.** The detector's state is proved against the reference
  function `Detection.Collect`, which is the list obtained by feeding the
  history one value at a time. `Collect` and its lemmas take the scoring rule
  as a parameter, and the detector passes `Detection.ScoreRule`.

For an empty slice, `np.mean` and `np.std` return NaN and do not raise, so the
`except` branches at main.py:57-59 and main.py:75-76 never run. The model
returns `None` there. The detector never asks for the statistics of an empty
window, because it scores only when the history is longer than the window.

## Model

| member | source | states |
|---|---|---|
| Statistics.TrailingWindow | main.py:56 | For a window size of at least 1, `data[-window_size:]` has `min(window_size, len(data))` elements. They are the last elements of `data`, in their original order, and the window ends with the last element of `data`. |
| Statistics.TrailingWindowOfZero | main.py:56 | A window size of 0 gives `data[-0:]`, which is the whole list. |
| Statistics.Mean | main.py:56 | `np.mean` is defined exactly for a non-empty slice. The mean times the number of elements equals their sum. |
| Statistics.Variance | main.py:73 | The population variance is defined exactly for a non-empty slice and is never negative. The variance times N (not N - 1) equals the sum of squared deviations from the mean. |
| Statistics.MovingAverage | main.py:44-59 | For a window size of at least 1, the result is defined exactly when the history is non-empty. It is the sum of the last `min(window_size, len(data))` values divided by their count. |
| Statistics.MovingVariance | main.py:73 | The squared standard deviation of the trailing window is defined exactly when the history is non-empty, and is never negative. |
| Statistics.StandardDeviation | main.py:61-76 | `standard_deviation` is defined exactly when the window variance is. Given a true square root, it is non-negative and its square is the population variance of the trailing window. |
| Statistics.ZScore | main.py:78-94 | For a positive standard deviation, z times the deviation equals `x - mean`. For a deviation of 0 or less, z is 0 whatever `x` and `mean` are. |
| Statistics.MeanBetween | main.py:56 | The mean of a non-empty window lies between any lower and upper bound of its values. |
| Statistics.ConstantWindow | main.py:72-73 | A window whose values all equal `c` has mean `c` and variance 0. |
| Statistics.VarianceZeroIffConstant | main.py:73 | The population variance of a non-empty window is 0 if and only if all its values are equal. |
| Statistics.StandardDeviationZeroIffConstant | main.py:61-76 | The standard deviation of a non-empty trailing window is 0 if and only if every value in the window is the same. |
| Statistics.WindowStatisticsExample | test_anomaly_detection.py:21-35 | For `[1, 2, 3, 4, 5]` and a window of 3, the window is `[3, 4, 5]` and the moving average is 4. The variance is 2/3, not 1, so the deviation divides by N. The standard deviation is positive and its square is 2/3. |
| Statistics.AbsZScore | main.py:91 | For a positive standard deviation, |z| times the deviation is the distance from the point to the mean. |
| Statistics.ZScoreExample | test_anomaly_detection.py:37-48 | `z_score(10, 5, 2)` is 2.5, and `z_score(x, mean, 0)` is 0 for every `x` and `mean`. |
| Statistics.AtThresholdNotAnomaly | main.py:236 | The test is strict: a point exactly `threshold` standard deviations from the mean is not an anomaly. |
| Statistics.AnomalyMonotone | main.py:236 | For a fixed mean and standard deviation, a point at least as far from the mean as an anomaly is also an anomaly. |
| Statistics.AnomalySquaredForm | main.py:232-236 | For a positive standard deviation whose square is the variance and a non-negative threshold, `abs(z) > t` holds if and only if `(x - mean)^2 > t^2 * variance`. This is the test without the square root. |
| Stream.CheckStreamArgs | main.py:22-23 | The stream arguments are accepted, unchanged, exactly when the duration and the interval are both positive. Otherwise the result is `ValueError` with the source's message. |
| Detection.CheckConfig | main.py:109-110 | The detector configuration is accepted, unchanged, exactly when the window size and the threshold are both positive. Otherwise the result is `ValueError` with the source's message. |
| Detection.Score | main.py:230-234 | A history gets a z-score exactly when it holds more than `window_size` points. Otherwise no score is computed. |
| Detection.ScoreWindow | main.py:230-234 | When a score is computed, the window is exactly the last `window_size` points and ends with the newest point. The score is that point's z-score against the window's mean and the root of its population variance. |
| Detection.CollectStep | main.py:236-243 | Feeding one more value leaves the anomaly list as it was, plus at most one entry for that value. |
| Detection.CollectUnscored | main.py:252-255 | While no prefix of the history gets a score, the anomaly list stays empty. |
| Detection.DetectedDuringFill | main.py:252-255 | While the history holds no more than `window_size` points, the detector has recorded no anomaly. |
| Detection.CollectPrefix | main.py:239-243 | The anomalies of any prefix of the history are a prefix of the anomalies of the whole history, so earlier entries are never altered or removed. |
| Detection.CollectSound | main.py:236-243 | Every entry `(frame, value, z)` is a flagged point: `value` is the point at `frame`, `z` is its score against the history up to and including it, and `abs(z) > threshold`. |
| Detection.CollectOrdered | main.py:226-243 | The entries are in strictly increasing time order. |
| Detection.CollectComplete | main.py:236-243 | Every point whose score exceeds the threshold in absolute value has an entry with its time index. |
| Detection.IndexedAppend | main.py:226-227 | If time indices are positions 0, 1, 2, ..., appending the current length keeps them so. |
| Detection.Detector.constructor | main.py:158-160 | The detector starts with empty time, data and anomaly lists and satisfies its invariant. |
| Detection.Detector.Update | main.py:226-255 | One tick keeps the invariant: time indices are positions, and the anomaly list is exactly `Collect` of the history. The tick does four things: (1) it appends exactly the new value, with time index equal to the old history length; (2) it computes no z-score while the new length is at most `window_size`, and otherwise the score of the new history; (3) it flags the value exactly when a score exists and its absolute value exceeds the threshold; (4) it extends the anomaly list by exactly `(frame, value, z)` when flagged, and otherwise leaves it unchanged. |
| Detection.Start | main.py:109-160 | A non-positive window size or threshold fails with `ValueError` before any state exists. Otherwise the result is a fresh detector with the given configuration, satisfying its invariant, with empty lists. |

## Left out

- The body of `simulate_data_stream` (main.py:25-41) is not modelled. It is paced by the wall clock and draws random noise, so the values it yields and how many there are cannot be stated. Only its argument check is modelled. The source's test of its element count (test_anomaly_detection.py:8-19) depends on timing and is left out for the same reason.
- The Qt and pyqtgraph code is not modelled: the windows, layouts, the two tables, `add_row_to_table`, `add_row_to_anomaly_table`, the plot and scatter updates, the `QTimer` and `on_click` (main.py:112-302). `Detector.Update` returns the row it would add to the data table as a `Tick`. The `brush` of an anomaly entry is display data and is dropped.
- Pulling the next value from the generator, and stopping the timer on `StopIteration` (main.py:217-224), are not modelled. The value becomes the parameter of `Update`.
- The `try/except` fallbacks that print and return 0 (main.py:57-59, 75-76, 92-94, 250-251) and every `print` are left out. With real-valued inputs none of these exceptions is raised.
- Floating-point arithmetic and numpy internals are not modelled: values are reals, and there is no overflow, rounding or NaN propagation. The NaN of an empty slice is `None`.
- The default arguments `duration=60, interval=0.5` (main.py:8) and `window_size=10, z_threshold=3` (main.py:97) are not modelled: `Stream.CheckStreamArgs`, `Detection.CheckConfig` and `Detection.Start` take every argument explicitly.
- In the only driver, the `ValueError` that the stream raises at its first `next()` is caught and printed by `update` (main.py:222-224). This path is part of pulling values from the generator and is not modelled.
- `window_size` is an integer. A non-integer window size would make the slice raise `TypeError`, which is not modelled.
- Statistics.StandardDeviation: the sign and square of its result are stated only when `root` is a true square root (`IsSqrt(root)`). The detector's invariant guarantees this.
