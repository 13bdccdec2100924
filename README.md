# Maximum-subarray benchmark: algorithms and history analyser

This project models two sequential parts of a micro-benchmarking repository in Dafny and proves properties of them.

The first part is the maximum-subarray algorithms that the benchmark times (`main.cpp`), module `MaxSubArray` in `max_sub_array.dfy`:

- `max_sub_array_greedy` is the O(n²) scan over `[start_at, end_at)`. It is modelled as a method with its two nested loops.
- `max_crossing_sub_array` is the helper that finds the best slice through `mid` and `mid + 1`. It is modelled as a method with its two loops. It is also modelled as the function `Crossing`, built from `LeftScan` and `RightScan`, which are the functional forms of those two loops.
- `max_sub_array_logarithmic` is the divide-and-conquer recursion over the inclusive range `[start_at, end_at]`. It is modelled as the recursive function `Logarithmic`, which returns the `(max, start_index, end_index)` triple that the source writes through its reference parameters. `sze >> 1` is `Half`, written by recursion, and `HalfIsShift` proves it equal to `sze / 2`.
- The reference definition is `MaxSliceSum`, the largest sum of a non-empty contiguous slice. It is proved to bound every slice and to be attained.
- The greedy scan seeds its running maximum with `vals[0]` even when `start_at > 0`. Its contract states that behaviour, and it gives the maximum over the range for `start_at == 0`, which is the only call site.
- C++ `int` is modelled as a mathematical integer. The results hold under the assumption that no sum overflows.

The textbook algorithm is correct. The code as written differs from it in two places, and the model follows the code; see Findings:

- The crossing helper can report the end index -1.
- The three-way selection mishandles a tie between the left and right results.

`LogarithmicMaximalWhenTieFree` and `BenchmarksAgree` prove that the two benchmarks compute the same maximum whenever that tie never arises.

The second part is the list and index logic of the history analyser (`benchmark_monitor.py`), module `BenchmarkMonitor` in `benchmark_monitor.dfy`:

- `clamp`.
- `turningpoints`: a method with its loop.
- The input guards of `smooth` and its `np.r_` reflection padding.
- The grouping of benchmark records by name in `parse_benchmark_file`. The dictionary the function fills in place is the field of the class `BenchmarkHistory`. The model includes the partial update left behind when a record raises, and the caller's loop that swallows the exception.
- The selection of the file range in `main`, with Python slice semantics written out (`PySlice`, `PySliceDown`).

## Model

| member | source | states |
|---|---|---|
| MaxSubArray.MaxSubArrayGreedy | main.cpp:12-32 | The result is at least `vals[0]` and at least every slice sum in `[startAt, endAt)`. The pair is either `(startAt, startAt)` with `vals[0]`, or a slice inside the range whose sum is the result. No earlier pair in (i, then j) order reaches the result, because of the strict `s > max`. With `startAt == 0 < endAt` the result is `MaxSliceSum` over `[0, endAt-1]`. |
| MaxSubArray.LeftScanIsBest | main.cpp:55-66 | `left_max` is the best sum of `vals[l..mid]` over `l` in `[start_at, mid]`. `left_start_index` attains it and is the attaining `l` closest to `mid`. |
| MaxSubArray.RightScanIsBest | main.cpp:68-79 | `right_max` is the best sum of `vals[mid+1..r]` over `r` in `[mid+1, end_at]`. The recorded end index is the first `r` attaining it. It stays -1 exactly when no `r > mid+1` strictly beats `vals[mid+1]`. |
| MaxSubArray.Crossing | main.cpp:53-85 | The crossing result's start index lies in `[start_at, mid]`. Its end index is -1 or lies in `(mid+1, end_at]`. |
| MaxSubArray.CrossingIsBest | main.cpp:53-85 | The returned sum `left_max + right_max` bounds every slice crossing `mid`/`mid+1`. It is the sum of the slice from the start index to the end index, or to `mid+1` when the end index is -1. The end index is -1 exactly when `vals[mid+1]` alone is the best right part. |
| MaxSubArray.CrossingIsSlice | main.cpp:81-84 | The reported start and end indices delimit a slice whose sum is the returned value. An end index of -1 stands for `mid+1`. |
| MaxSubArray.MaxCrossingSubArray | main.cpp:53-85 | The two loops, with running sums and strict comparisons, return exactly `Crossing`'s sum and indices. |
| MaxSubArray.Select | main.cpp:106-125 | The result is one of `left`, `right` or `cross`. It is the largest of the three unless `left_max == right_max > cross_max`, in which case it is `cross`, with a smaller sum. |
| MaxSubArray.HalfIsShift | main.cpp:94-95 | `Half(sze)` is `sze >> 1` for `sze >= 0`, i.e. `sze / 2`. A positive size is split strictly. |
| MaxSubArray.Logarithmic | main.cpp:87-126 | The start index lies in `[start_at, end_at]`. The end index is -1 or lies in `[start, end_at]`. The recursion on `[start_at, mid]` and `[mid+1, end_at]` terminates on every non-empty range. |
| MaxSubArray.LogarithmicSingle | main.cpp:89-93 | The base case returns `vals[start_at]` with both indices `start_at`. |
| MaxSubArray.LogarithmicIsSlice | main.cpp:87-126 | Unless the end index is the crossing helper's -1, the reported indices delimit a slice whose sum is the returned value. |
| MaxSubArray.LogarithmicAtMostMax | main.cpp:87-126 | The divide-and-conquer result never exceeds the maximum slice sum of its range. |
| MaxSubArray.LogarithmicStep | main.cpp:106-124 | At each level the result is one of `left_max`, `right_max` and `cross_max`. It is the largest of them unless `left_max == right_max > cross_max`, in which case it is `cross_max`. |
| MaxSubArray.LogarithmicMaximalIffNoTie | main.cpp:106-124 | When both halves return their maximum slice sums, the whole range's result is its maximum slice sum exactly when the tie does not occur at this level. |
| MaxSubArray.VisitsHalves | main.cpp:94-101 | Every range the recursion reaches and splits has both of its halves reached as well. |
| MaxSubArray.LogarithmicMaximalOnVisited | main.cpp:98-124 | If no range the recursion reaches has the tie, then every such range's result is its maximum slice sum. |
| MaxSubArray.LogarithmicMaximalWhenTieFree | main.cpp:98-124 | Without the tie at any level of the recursion, the result is the maximum slice sum of the range. |
| MaxSubArray.BenchmarksAgree | main.cpp:138 | On the same data and without the tie, greedy over `[0, n)` (the call at main.cpp:48) and divide and conquer over `[0, n-1]` return the same maximum. |
| MaxSubArray.CrossingLosesEndIndex | main.cpp:68-82 | On `[1, 1]`, both the crossing helper and the recursion report `(2, 0, -1)`, although the slice is `[0, 1]`. |
| MaxSubArray.TieFallsThroughToCrossing | main.cpp:106-124 | On `[1, -5, 1]` the recursion returns -3 while the maximum slice sum is 1, and the tie occurs at the top level. |
| MaxSubArray.CrossingCorrected | main.cpp:68-82 | With end index `mid+1` in place of -1, the crossing result always delimits a slice crossing `mid`, whose sum is the best such sum. |
| MaxSubArray.SelectCorrected | main.cpp:106-124 | With non-strict comparisons the selection always returns a largest candidate. |
| MaxSubArray.LogarithmicCorrected | main.cpp:87-126 | With both corrections the recursion returns the maximum slice sum, with indices delimiting a slice that attains it. |
| BenchmarkMonitor.Clamp | benchmark_monitor.py:56 | With ordered bounds the result lies in `[smallest, largest]`, and it equals `n` exactly when `n` is in range. Below the range it is `smallest`, above it `largest`. With `largest < smallest` it is always `smallest`. |
| BenchmarkMonitor.ClampIdempotent | benchmark_monitor.py:56 | Clamping twice equals clamping once, for any bounds. |
| BenchmarkMonitor.TurningPoints | benchmark_monitor.py:58-66 | Every reported peak or trough is a strict local maximum or minimum inside `[1, len(x)-2]`, and every such index is reported. Both lists are strictly increasing and disjoint. Both are empty when `len(x) < 3`. |
| BenchmarkMonitor.SliceBound | benchmark_monitor.py:157-167 | A step-1 slice bound counts from the end when negative and is clipped to `[0, len]`. |
| BenchmarkMonitor.PySlice | benchmark_monitor.py:157-167 | `s[start:stop]` is `s[start..stop]` for in-range bounds and empty when the adjusted stop does not exceed the adjusted start. |
| BenchmarkMonitor.SliceBoundDown | benchmark_monitor.py:129 | A step-(-1) slice bound counts from the end when negative and is clipped to `[-1, len-1]`. |
| BenchmarkMonitor.Descending | benchmark_monitor.py:129 | A descending run has `a - b` elements, the k-th being `s[a-k]`. |
| BenchmarkMonitor.ReflectPadShape | benchmark_monitor.py:129 | Under smooth's guards, the padded signal is `x[1..window_len]` reversed, then `x`, then `x[n-window_len..n-1]` reversed. Its length is `n + 2(window_len-1)`. |
| BenchmarkMonitor.Smooth | benchmark_monitor.py:120-129 | The guards apply in the source's order. An input shorter than the window is refused, even for windows shorter than 3. Otherwise a window shorter than 3 returns `x` unchanged, even with an unknown name. Otherwise an unknown window name is refused. No other input fails. |
| BenchmarkMonitor.SmoothHanning | benchmark_monitor.py:115-127 | Called as at line 191, with the default window `'hanning'`, smooth never fails with an unknown window. It fails exactly when the input is shorter than the window, and with a window of 3 or more it convolves with `'hanning'`. |
| BenchmarkMonitor.SmoothOutputLength | benchmark_monitor.py:129-136 | A convolved result pads by `window_len-1` on each side, and its 'valid' convolution has `n + window_len - 1` values. An unchanged result has `n`. |
| BenchmarkMonitor.ReadEntries | benchmark_monitor.py:49-50 | The entries read are the `(name, metric)` pairs of the leading records that have both keys. The record after them, if any, lacks one and raises. |
| BenchmarkMonitor.Append | benchmark_monitor.py:51-54 | A first-seen name gets a singleton list and a known name gets the value appended. The keys grow by that name only, and other entries are untouched. |
| BenchmarkMonitor.GroupedValues | benchmark_monitor.py:49-54 | After grouping, each name's list is its previous list, or empty, followed by its values in record order. |
| BenchmarkMonitor.GroupedNames | benchmark_monitor.py:51-52 | After grouping, a name is present exactly when it was before or some record carries it. |
| BenchmarkMonitor.GroupedConcat | benchmark_monitor.py:171-174 | Grouping two runs of records in turn equals grouping their concatenation. |
| BenchmarkMonitor.BenchmarkHistory.constructor | benchmark_monitor.py:170 | The dictionary starts empty. |
| BenchmarkMonitor.BenchmarkHistory.ParseBenchmarkFile | benchmark_monitor.py:44-54 | The new dictionary is the old one with the entries read before the first raising record appended. It reports failure exactly for an unreadable file or a record lacking the name or the metric. |
| BenchmarkMonitor.BenchmarkHistory.CollectBenchmarks | benchmark_monitor.py:170-176 | The loop swallows each failure, so every file's partial update persists. |
| BenchmarkMonitor.AfterFilesGroupsKept | benchmark_monitor.py:170-176 | The dictionary after all files equals grouping, in file order, every entry read before its file's failure. |
| BenchmarkMonitor.AfterFilesValues | benchmark_monitor.py:170-176 | Per benchmark name, the collected values are the kept entries' values for that name, in file and record order. |
| BenchmarkMonitor.Discard | benchmark_monitor.py:160-161 | A non-positive discard keeps every file, and a discard in `[0, n]` keeps the oldest `n - discard`. A discard in `(n, 2n]` wraps around to keep `files[..2n - discard]`, and a larger one keeps nothing. |
| BenchmarkMonitor.LimitSamples | benchmark_monitor.py:164-167 | `maxsamples == 0` keeps all files. For `0 < maxsamples < n` the result is `files[n-maxsamples-1 .. n-1]`, of length `maxsamples`, which excludes the newest file. `maxsamples >= n` or `< 0` yields nothing. |
| BenchmarkMonitor.MaxSamplesDropsNewest | benchmark_monitor.py:164-167 | With three files, `maxsamples` 3 selects nothing and `maxsamples` 2 selects the two oldest. |
| BenchmarkMonitor.LimitSamplesCorrected | benchmark_monitor.py:164-167 | The corrected selection is the newest `min(maxsamples, n)` files, as a suffix of the list. |
| BenchmarkMonitor.SelectFiles | benchmark_monitor.py:156-167 | When both `startindex` and `endindex` are given, the result is exactly `files[startindex:endindex]` and `discard` and `maxsamples` are ignored. Otherwise the result is `discard` followed by `maxsamples`. |

## Left out

- `benchmark_memory.h` is not part of this model. Its substance is a sampling thread, an atomic stop flag, operating-system memory queries and `double` values.
- The Google Benchmark registration and iteration loops, the `rand()` data and the `sleep_for` calls in `main.cpp` are not modelled. `BenchmarksAgree` stands for the two call sites.
- MaxSubArray: C++ `int` overflow is not modelled. All sums are mathematical integers, which assumes, as stated above, that no partial sum overflows. With 100 `rand()` values the source's sums can overflow.
- BenchmarkMonitor: argument parsing, directory scanning and sorting by modification time, `ensureDir`, `print` output, plotting and the HTML report are not modelled.
- BenchmarkMonitor: the statistics in `hasSlowedDown` and `estimateStepLocation` are not modelled, and neither are the window weights, the `eval` of the window name or the convolution in `smooth`. These are floating-point or library work. `Smooth` returns what would be convolved, and `OutputLength` gives the length of the 'valid' result.
- BenchmarkMonitor.Smooth: the `x.ndim != 1` guard is not modelled, since the input is a sequence and so always one-dimensional. NaN values are not modelled either, since benchmark values are reals.
- BenchmarkMonitor.ParseBenchmarkFile: `BenchmarkFile.Unreadable` stands for any failure before the first record: a missing file, invalid JSON, or no `benchmarks` list. The JSON value types are not modelled, and a metric is a real.
- BenchmarkMonitor.Smooth: the default `window_len=11` is not modelled, since the only call passes `args.medianfilter` explicitly. The default `window='hanning'` is modelled by `SmoothHanning`.
- BenchmarkMonitor.ParseBenchmarkFile: the insertion order of the `benchmarks` dictionary is not captured. The model's `map` has no key order, so the order in which the loop at benchmark_monitor.py:180 visits benchmarks, and with it the order of the plots and of the report, is not modelled. The values kept under each key, and their order, are modelled.
- MaxSubArray.Logarithmic: requires a non-empty range. On empty data the call at main.cpp:138 passes `end_at` as `data.size() - 1` converted to `int`, i.e. -1. The source then splits at `mid = -1` and calls itself on `(0, -1)` again without end. The benchmark always fills 100 values, so this does not arise there.
- BenchmarkMonitor.CollectBenchmarks: the repeated `.json` and `is_file()` check on each selected entry is a file-system query and is not modelled.

## Findings

| source | as written | input that shows it | evidently intended | confidence | as-written member | corrected member |
|---|---|---|---|---|---|---|
| main.cpp:68-82 | `right_end_index` starts at -1 and changes only when a longer right part strictly beats `vals[mid+1]` | `[1, 1]`, logarithmic over `[0, 1]`: sum 2 with indices `(0, -1)` | end index `mid + 1` when `vals[mid+1]` alone is the best right part | high; not executed | MaxSubArray.CrossingLosesEndIndex | MaxSubArray.CrossingCorrected |
| main.cpp:107-124 | both strict comparisons fail when `left_max == right_max > cross_max`, and `cross_max` is returned | `[1, -5, 1]`: logarithmic returns -3, greedy returns 1 | the largest of the three candidates | high; not executed | MaxSubArray.TieFallsThroughToCrossing | MaxSubArray.LogarithmicCorrected |
| benchmark_monitor.py:164-167 | `files[fileCount-maxsamples-1:fileCount-1]` drops the newest file and is empty once `maxsamples >= fileCount` | three files with `maxsamples` 3 select none; with `maxsamples` 2 they select the two oldest | the newest `min(maxsamples, fileCount)` files | medium; not executed | BenchmarkMonitor.MaxSamplesDropsNewest | BenchmarkMonitor.LimitSamplesCorrected |
