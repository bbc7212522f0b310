# GPU benchmark scripts of softab, modelled in Dafny

This project models the deterministic logic of the two GPU scripts under `tests/`.
The tensor library, the clock and the `rocm-smi` subprocess become inputs.

- `bench_stress.py` sizes one square FP16 workload from half of a memory budget.
  It multiplies two matrices of that size again and again until a deadline, and counts RuntimeErrors.
  It gives up on the eleventh RuntimeError.
  It then summarises the throughput samples (mean, minimum, maximum) and derives a status.
  `main` turns that status into an exit code.
  It also reads the GPU temperature before and after the run, by scanning the `rocm-smi` output for text such as `42.0c`.
- `bench_matmul.py` bounds the matrix dimension by the whole budget and keeps the candidate sizes 512 to 16384 that fit.
  It times each kept size in ascending order and stops after the first size that fails.
  It then reports the peak throughput, taking the first maximum.

Modules:

- `Common`: the report status, the exit code rule, and the FLOP and TFLOPS arithmetic.
- `IntMath`: exact versions of `int(x ** 0.5)` and `2 ** (x.bit_length() - 1)`.
- `Temperature`: `get_gpu_temp` as a line scan. A regular-expression search is specified by its leftmost match.
- `Stress`: sizing, the sampling loop, aggregation, `run_stress_test` and `main` of the stress script.
- `Matmul`: sizing, size filtering, the per-size loop, peak selection and `run_benchmark` of the benchmark.

Each loop of the scripts outside the tensor-library calls is a method with loop invariants, proved against a specification:

- `Stress.SampleLoop` against `Samples`, `Failures`, `Multiplied` and the stopping point `StopPoint`;
- `Temperature.GpuTemp` against `TemperatureOf`;
- `Matmul.Sweep` against `IsSweep`.

The straight-line rest of the stress run after allocation, `Stress.AfterAllocation`, is proved equal to the function `AllocatedReport`.
The list comprehension that filters the benchmark sizes is the recursive function `KeepAtMost`, specified by `TestSizes`.
The properties of the scripts are lemmas about these functions.
Points of the code worth knowing:

- `max_dim` is 13377 for 1 GiB and 53509 for 16 GiB.
- The stress loop counts RuntimeErrors in total, not consecutive ones.
- A stress run in which no multiply ever bound `c` ends with status "error". This covers a deadline reached before the first attempt, and failures that all came before `torch.mm` returned. The cleanup `del a, b, c` raises in that case, and its message replaces any "Too many errors" message.

## Model

| member | source | states |
|---|---|---|
| `Common.ExitCode` | tests/bench_stress.py:165 | The exit code is 0 or 1, and 0 exactly when the status text is "success". `bench_matmul.py:112` applies the same rule. |
| `Common.Flops` | tests/bench_stress.py:88 | The operation count of one n×n by n×n multiply, 2·n³, as `flops` at `bench_matmul.py:70` too. |
| `Common.Tflops` | tests/bench_stress.py:101-102 | Throughput times elapsed seconds times 10^12 gives back the FLOP count 2·n³. It is never negative. |
| `Common.TflopsHalvesWhenTimeDoubles` | tests/bench_stress.py:101-102 | Doubling the elapsed time halves the reported TFLOPS for a fixed size. |
| `IntMath.BitLength` | tests/bench_stress.py:73 | The bit length is 0 only for 0. Otherwise n lies in [2^(r-1), 2^r). |
| `IntMath.BitLengthUnique` | tests/bench_stress.py:73 | Any k with 2^(k-1) ≤ n < 2^k is the bit length of n. |
| `IntMath.ISqrt` | tests/bench_matmul.py:39 | r² ≤ n < (r+1)², the exact meaning of `int(n ** 0.5)`. |
| `IntMath.ISqrtUnique` | tests/bench_matmul.py:39 | Any k with k² ≤ n < (k+1)² is the integer square root. |
| `IntMath.ISqrtMonotone` | tests/bench_stress.py:71 | A larger element budget never gives a smaller root. |
| `Stress.RoundDownToPowerOfTwo` | tests/bench_stress.py:73 | For x ≥ 1 the result is a power of two p with p ≤ x < 2p. For x = 0 the plan is the fractional size 0.5. |
| `Stress.StressPlanFor` | tests/bench_stress.py:69-73 | The size is fractional exactly for a 0 GiB budget. Otherwise it is a power of two, at most 8192 and at most the square-root bound, and more than half of the smaller of the two. Three FP16 matrices of that size fit in half the budget. |
| `Stress.StressSizeIsMaximal` | tests/bench_stress.py:69-73 | Every budget of at least 1 GiB gives exactly 8192. |
| `Stress.StressBound` | tests/bench_stress.py:69-71 | The square-root bound b is the largest size whose three FP16 matrices fit in half the budget: 6·b² ≤ budget/2 < 6·(b+1)². |
| `Stress.Failures` | tests/bench_stress.py:109-110 | The error count after n attempts is at most n. |
| `Stress.Samples` | tests/bench_stress.py:96-104 | Samples plus failures never exceed the attempts, and every sample is non-negative. |
| `Stress.Multiplied` | tests/bench_stress.py:97 | Whether `c` is bound after the first n attempts: some attempt got past `torch.mm`. |
| `Stress.MultipliedMeansSomeAttempt` | tests/bench_stress.py:97 | `c` is bound after n attempts exactly when one of them got past `torch.mm`. |
| `Stress.FailuresMonotone` | tests/bench_stress.py:110 | The error count never decreases as attempts go on. |
| `Stress.StillSampling` | tests/bench_stress.py:94-113 | After n attempts the loop goes on: none of them let an exception escape, and at most 10 of them raised RuntimeError. |
| `Stress.StopsAt` | tests/bench_stress.py:94-113 | The loop stops after n attempts: either the deadline came with the loop still going, or the n-th attempt is the one that ended it. |
| `Stress.StillSamplingPrefix` | tests/bench_stress.py:94-113 | Once the loop has stopped, it has stopped for every longer run of attempts. |
| `Stress.StopsAtUnique` | tests/bench_stress.py:94-113 | Each outcome sequence has exactly one stopping point. |
| `Stress.StopPoint` | tests/bench_stress.py:94-113 | The loop stops at the deadline while still sampling, or on the attempt that escaped or took the errors past 10. |
| `Stress.SampleLoop` | tests/bench_stress.py:91-113 | The loop consumes exactly the attempts up to the stopping point. `iterations` is the number of samples, and `errors` is the total count of RuntimeErrors, at most 11. The loop gives up exactly when errors exceed 10, with the text of the last RuntimeError. It ends on an escaping exception exactly when the last attempt raised one. |
| `Stress.Sum` | tests/bench_stress.py:119 | `sum(tflops_samples)`: the sum of the samples, 0.0 for none. |
| `Stress.MinOf` | tests/bench_stress.py:120 | The minimum is one of the samples and no sample is smaller. |
| `Stress.MaxOf` | tests/bench_stress.py:121 | The maximum is one of the samples and no sample is larger. |
| `Stress.Mean` | tests/bench_stress.py:119 | `sum(samples) / len(samples)`, for non-empty samples. Its properties are the two lemmas below. |
| `Stress.MeanBounds` | tests/bench_stress.py:119 | The mean of samples lying between two bounds lies between them. |
| `Stress.MeanTimesCount` | tests/bench_stress.py:119 | The mean times the number of samples is their sum. |
| `Stress.Stats` | tests/bench_stress.py:118-121 | With no samples, mean, minimum and maximum keep their 0.0 defaults. Otherwise the extremes are samples that bound all others, the average is the mean, and min ≤ mean ≤ max. |
| `Stress.ErrorCountBounded` | tests/bench_stress.py:109-113 | After the loop, errors ≤ 11. Errors exceed 10 exactly when the loop broke on a failed attempt. |
| `Stress.Message.Render` | tests/bench_stress.py:112 | The `error_message` text: a fixed or exception text as is, "Too many errors: " before the last RuntimeError, and the UnboundLocalError text of line 126. |
| `Stress.WithDefaults` | tests/bench_stress.py:15-26 | A report with the dataclass defaults: no iterations or errors, 0.0 throughputs and no temperatures. |
| `Stress.AllocatedReport` | tests/bench_stress.py:91-131 | The report after allocation is never "running", has at most 11 errors, and has at most as many samples plus errors as attempts. `iterations` is the number of samples and `errors` the number of RuntimeErrors before the loop stopped. It is "error" exactly when an exception escaped the loop, no multiply bound `c`, or `empty_cache` raised. Otherwise it is "success" exactly when there were no errors. After an escape the duration is the requested one and the throughputs stay 0.0. Otherwise the duration is the measured one and avg/min/max are the mean, minimum and maximum of the samples (0.0 for none). The message is, in order of precedence: the escaped exception's text; the UnboundLocalError text when no multiply bound `c`; the `empty_cache` exception's text; "Too many errors: <last error>" after more than 10 errors; and none otherwise, including runs with 1 to 10 errors. |
| `Stress.CleanRunSucceeds` | tests/bench_stress.py:118-131 | A loop with no escape, a bound `c` and no RuntimeError, followed by a cleanup that did not raise, gives "success". |
| `Stress.SingleAttemptRun` | tests/bench_stress.py:91-131 | One completed attempt before the deadline gives "success", one iteration, and that attempt's throughput as mean, minimum and maximum. |
| `Stress.CleanMultiplyIsSample` | tests/bench_stress.py:97-104 | Without failures, a bound `c` means at least one sample was recorded. |
| `Stress.TooManyErrorsReported` | tests/bench_stress.py:109-131 | "Too many errors: <last error>" is the final message exactly when the loop broke on the eleventh failure, some multiply bound `c`, and the cleanup did not raise. |
| `Stress.CleanupFailureReported` | tests/bench_stress.py:123-131 | When `empty_cache` raises after a loop that bound `c`, the report is "error" with that exception's text, even after a clean run. |
| `Stress.SuccessMeansCleanRun` | tests/bench_stress.py:118-131 | A "success" report has no errors, at least one iteration, no message, a cleanup that did not raise, and min ≤ avg ≤ max. |
| `Stress.AfterAllocation` | tests/bench_stress.py:91-131 | The rest of the `try` block yields the report `AllocatedReport` describes. An escaping exception forces "error" with its text. Otherwise the status follows the error count. The cleanup then forces "error" when `c` was never bound or `empty_cache` raised. |
| `Stress.RunStressTest` | tests/bench_stress.py:49-135 | A missing library or device gives "error" with duration 0 and the fixed message. An allocation failure gives "error" with its text. Otherwise the report is `AllocatedReport`, including the cleanup outcome. On an available device both temperatures are the probe's readings of the tool output. The status is never left "running". |
| `Stress.StressMain` | tests/bench_stress.py:146-165 | The exit code is 0 exactly for "success". `error_message` is emitted exactly when it is set and non-empty, with its rendered text. |
| `Temperature.Split` | tests/bench_stress.py:37 | `split('\n')` gives at least one piece, none contains a newline, and joining them with newlines gives back the input. |
| `Temperature.Lower` | tests/bench_stress.py:38 | Lower-casing keeps the length and leaves no capital letter. Each capital becomes its small letter, and every other character is kept. |
| `Temperature.LowerHasC` | tests/bench_stress.py:38 | The guard `'c' in line.lower()` holds exactly when the raw line holds 'c' or 'C'. |
| `Temperature.LowerKeepsNumeral` | tests/bench_stress.py:41-43 | Lower-casing leaves a numeral unchanged. |
| `Temperature.LowerMatchInOriginal` | tests/bench_stress.py:41-43 | A match in the lowered line is the raw line's own digits at the same place, followed by 'c' or 'C'. |
| `Temperature.IsNumeral` | tests/bench_stress.py:41 | The strings `\d+\.?\d*` accepts: a leading digit, then digits with at most one '.'. |
| `Temperature.MatchAt` | tests/bench_stress.py:41 | `(\d+\.?\d*)c` matches at position i with group g: g is a numeral found at i and followed by 'c'. |
| `Temperature.MatchHere` | tests/bench_stress.py:41 | What the engine finds at a position is a match of `(\d+\.?\d*)c` there. |
| `Temperature.MatchHereComplete` | tests/bench_stress.py:41 | Every match at a position is the one the engine finds there. |
| `Temperature.MatchAtUnique` | tests/bench_stress.py:41 | At a given position the pattern can capture only one group. |
| `Temperature.Search` | tests/bench_stress.py:41 | `re.search` returns the leftmost match, and None exactly when no position matches. |
| `Temperature.NoLetterCNoMatch` | tests/bench_stress.py:38-41 | A line without 'c' cannot match, so the `'c' in line` guard never hides a reading. |
| `Temperature.LineReading` | tests/bench_stress.py:38-43 | A line's reading is digit text with at most one '.'. |
| `Temperature.Reading` | tests/bench_stress.py:37-43 | The reading of a list of lines: that of its first line giving one. It is always digit text. |
| `Temperature.ReadingNone` | tests/bench_stress.py:37-46 | There is no reading exactly when no line matches. |
| `Temperature.ReadingFirst` | tests/bench_stress.py:37-43 | The reading is that of the first line that matches. |
| `Temperature.TemperatureOf` | tests/bench_stress.py:29-46 | The reading of the tool's whole output. None when the tool failed, and digit text otherwise. |
| `Temperature.CheckLine` | tests/bench_stress.py:38-43 | One loop step gives the line's reading. |
| `Temperature.GpuTemp` | tests/bench_stress.py:29-46 | The scan returns the reading of the tool's output, or None when the tool failed. A reading is always digit text. |
| `Matmul.MaxDim` | tests/bench_matmul.py:37-39 | `max_dim` is the largest d such that three FP16 d×d matrices fit in the budget. |
| `Matmul.MaxDimUnique` | tests/bench_matmul.py:37-39 | Any d whose matrices fit, while those of d+1 do not, is `max_dim`. |
| `Matmul.MaxDimExamples` | tests/bench_matmul.py:37-39 | 1 GiB gives 13377 and 16 GiB gives 53509. |
| `Matmul.MaxDimMonotone` | tests/bench_matmul.py:37-39 | A larger budget never gives a smaller `max_dim`. |
| `Matmul.KeepAtMost` | tests/bench_matmul.py:43 | The comprehension keeps exactly the elements no larger than the bound. |
| `Matmul.KeepAtMostAscending` | tests/bench_matmul.py:42-43 | Filtering an ascending list keeps a prefix, and everything after it exceeds the bound. |
| `Matmul.TestSizes` | tests/bench_matmul.py:42-43 | `test_sizes` is a prefix of the candidates. Every kept size is at most `max_dim`, and every dropped one exceeds it. |
| `Matmul.TestSizesPrefixClosed` | tests/bench_matmul.py:42-43 | If a candidate is dropped, every larger candidate is dropped too. |
| `Matmul.TestSizesCount` | tests/bench_matmul.py:42-43 | When exactly the first n candidates fit, those n are the sizes tried. |
| `Matmul.TestSizesByBudget` | tests/bench_matmul.py:37-43 | 0 GiB tries no size. 1 GiB tries all but 16384. 2 GiB or more tries all six. |
| `Matmul.EntryFor` | tests/bench_matmul.py:60-90 | A timed size gives `time_ms` = total/10 in milliseconds, and TFLOPS whose product with that time is 2·size³. A failed size gives an error entry with the exception text. |
| `Matmul.IsSweep` | tests/bench_matmul.py:49-91 | What the loop leaves in `benchmarks`: the entries of a prefix of the sizes, in order. Every entry but the last is from a successful size, and the list stops short of the sizes only right after a failure. |
| `Matmul.SweepUnique` | tests/bench_matmul.py:49-91 | The sizes and their outcomes determine the benchmarks list. |
| `Matmul.SweepShape` | tests/bench_matmul.py:49-91 | Only the last entry can be an error. With no failing size, every size has a timing entry. |
| `Matmul.Sweep` | tests/bench_matmul.py:49-91 | The loop records, in order, the entries of a prefix of the sizes. Every size before the last succeeded, and the loop ends early only right after a failure. |
| `Matmul.PeakIndex` | tests/bench_matmul.py:94-96 | The chosen entry is a timing whose TFLOPS no entry exceeds, and every earlier timing is strictly lower. There is none exactly when no entry is a timing. |
| `Matmul.PeakOf` | tests/bench_matmul.py:93-98 | `peak_tflops`/`peak_size` are present exactly when some size succeeded. They are the maximum and the size of the first entry reaching it. |
| `Matmul.RunBenchmark` | tests/bench_matmul.py:12-100 | A missing library or device gives "error" with the fixed message, and only those give exit code 1. Otherwise the report holds the budget, `max_dim`, `test_sizes`, the sweep over them and its peak, and a failing size leaves the status "success". |

## Left out

- The tensor library (`randn`, `mm`, `synchronize`, `empty_cache`, device queries and version strings) is not modelled, and neither is the timed inner loop `for _ in range(iterations)` of bench_matmul.py:63-64, which only calls it. The ten multiplies come in as one measured total, `SizeOutcome.Timed(total)`. Its observable behaviour comes in as inputs: two flags, an allocation error, a sequence of attempt outcomes and the error of the final `empty_cache` (stress) or a per-size outcome function (benchmark).
- The report fields `pytorch_version`, `rocm_version`, `cuda_available`, `device_name`, `device_count` and `dtype` are omitted, because they only copy library values or constants.
- Wall-clock time (`perf_counter`) is not modelled. The stress deadline is the end of the outcome sequence, and the measured durations are inputs.
- An elapsed time of zero, which would make the scripts divide by zero, is excluded by the type `Seconds`.
- Floating point is replaced by exact reals. `round(..., 2)` is left out. With rounding, two different throughputs can tie after rounding, and the peak is then the first of the tied entries rather than the exact maximum.
- IntMath.ISqrt: models `int(x ** 0.5)` as the exact integer square root. The float result could differ for budgets far beyond any real device.
- Negative memory budgets are excluded by the type `nat`. The stress script crashes on them outside its `try`.
- `get_gpu_temp` keeps the matched digit text rather than converting it with `float`. The `rocm-smi` subprocess, its timeout and its errors become an optional output string.
- Temperature.Lower: lower-cases ASCII letters only, and `\d` matches ASCII digits only. Python applies both to all of Unicode.
- Stress.RunStressTest: with a 0 GiB budget, `torch.randn(0.5, 0.5)` raises a TypeError inside the `try`. The model requires the environment to supply that allocation error rather than producing torch's own text.
- A RuntimeError raised by `a[0, 0] = c[0, 0]` after a sample was already recorded (bench_stress.py:107) is not modelled. An attempt either records a sample or counts an error.
- A RuntimeError raised by `empty_cache` after a size's timing entry was appended (bench_matmul.py:82) is not modelled. That would add a second, error, entry for the same size.
- Exceptions other than RuntimeError inside the benchmark loop are not modelled. They escape `run_benchmark`.
- The wording of the UnboundLocalError message is that of Python 3.11 and later.
- `round(actual_duration, 2)` is not applied to the measured duration.
- Argument parsing, JSON printing, the unused `threading` import and `sys.exit` are not modelled.
