/** The sustained stress test (tests/bench_stress.py): choose one matrix size from
    half of the memory budget, multiply two FP16 matrices of that size repeatedly
    until the deadline, count failed multiplies and give up after too many of them,
    then summarise the throughput samples and derive the status and exit code.

    The tensor library, the clock and the temperature tool are inputs: a flag for
    each of "library importable" and "device available", the exception text (if any)
    raised while allocating the operands, the outcome of each multiply attempt made
    before the deadline, the measured duration, the exception text (if any) raised by
    the final `empty_cache`, and the tool's output before and after the run. */
module Stress {
  import opened Common
  import opened IntMath
  import Temperature

  /** The largest matrix dimension the stress test uses. */
  const MaxStressSize: nat := 8192
  /** The run gives up on the first failed multiply beyond this many. */
  const ErrorThreshold: nat := 10

  /** The `error_message` of a report: a fixed text or an exception's text, the text
      built from the RuntimeError that exhausted the error budget, or what the cleanup
      `del a, b, c` raises when `c` was never bound. */
  datatype Message = Plain(text: string) | TooManyErrors(last: string) | UnboundResult {
    function Render(): string {
      match this
      case Plain(t) => t
      case TooManyErrors(last) => "Too many errors: " + last
      // the wording of Python 3.11 and later
      case UnboundResult => "cannot access local variable 'c' where it is not associated with a value"
    }
  }

  const TorchMissing := Plain(TorchMissingText)
  const NoDevice := Plain(NoDeviceText)

  // ---------------------------------------------------------------------------
  // Sizing

  /** `2 ** (x.bit_length() - 1)`: a square size, or the float 0.5 when x is 0. */
  datatype StressPlan = Square(size: nat) | Fractional

  /** `int(max_elements ** 0.5)` for a budget of half of `gb` GiB shared by three FP16 matrices. */
  function StressBound(gb: nat): (b: nat)
    ensures MatrixCount * BytesPerElement * (b * b) <= (gb * GiB) / 2
    ensures (gb * GiB) / 2 < MatrixCount * BytesPerElement * ((b + 1) * (b + 1))
  {
    var half := (gb * GiB) / 2;
    var elements := half / (MatrixCount * BytesPerElement);
    var b := ISqrt(elements);
    assert half < MatrixCount * BytesPerElement * (elements + 1);
    b
  }

  function Min(a: nat, b: nat): nat {
    if a <= b then a else b
  }

  /** Rounding down to a power of two through the bit length. */
  function RoundDownToPowerOfTwo(x: nat): (p: StressPlan)
    ensures p.Fractional? <==> x == 0
    ensures p.Square? ==> IsPowerOfTwo(p.size) && p.size <= x < 2 * p.size
  {
    var b := BitLength(x);
    if b == 0 then Fractional
    else
      Pow2IsPowerOfTwo(b - 1);
      Square(Pow2(b - 1))
  }

  /** The matrix size of the stress run: the square root bound, capped at 8192 and
      rounded down to a power of two. It fits three FP16 matrices in half the budget. */
  function StressPlanFor(gb: nat): (p: StressPlan)
    ensures p.Fractional? <==> gb == 0
    ensures p.Square? ==> IsPowerOfTwo(p.size) && p.size <= MaxStressSize && p.size <= StressBound(gb)
    ensures p.Square? ==> 2 * p.size > Min(MaxStressSize, StressBound(gb))
    ensures p.Square? ==> MatrixCount * (p.size * p.size) * BytesPerElement <= (gb * GiB) / 2
  {
    var bound := StressBound(gb);
    var p := RoundDownToPowerOfTwo(Min(MaxStressSize, bound));
    if p.Square? then
      MulMonotone(p.size, bound);
      p
    else
      p
  }

  /** With any budget of at least 1 GiB the bound exceeds 8192, so the stress test
      always multiplies 8192 x 8192 matrices. */
  lemma StressSizeIsMaximal(gb: nat)
    requires gb >= 1
    ensures StressPlanFor(gb) == Square(MaxStressSize)
  {
    var elements := ((gb * GiB) / 2) / (MatrixCount * BytesPerElement);
    assert elements >= 8192 * 8192;
    ISqrtUnique(8192 * 8192, 8192);
    ISqrtMonotone(8192 * 8192, elements);
    assert Pow2(13) == 8192 && Pow2(14) == 16384;
    BitLengthUnique(8192, 14);
  }

  // ---------------------------------------------------------------------------
  // The sampling loop

  /** What one attempt at `c = torch.mm(a, b)` plus synchronisation does:
      - Measured: it completed in `seconds`;
      - Failed: it raised RuntimeError with `message`; `multiplied` tells whether
        `torch.mm` had already returned (and so bound `c`) when the error came;
      - Raised: some other exception escaped the iteration. */
  datatype Outcome =
    | Measured(seconds: Seconds)
    | Failed(message: string, multiplied: bool)
    | Raised(message: string)

  predicate MultipliedBy(o: Outcome) {
    o.Measured? || (o.Failed? && o.multiplied)
  }

  /** The number of failed attempts (RuntimeErrors) among the first n, consecutive or not. */
  function Failures(outs: seq<Outcome>, n: nat): (f: nat)
    requires n <= |outs|
    ensures f <= n
  {
    if n == 0 then 0
    else Failures(outs, n - 1) + (if outs[n - 1].Failed? then 1 else 0)
  }

  /** The throughput samples recorded for the first n attempts, in order: one per
      completed attempt. */
  function Samples(size: nat, outs: seq<Outcome>, n: nat): (xs: seq<real>)
    requires n <= |outs|
    ensures |xs| + Failures(outs, n) <= n
    ensures forall k :: 0 <= k < |xs| ==> xs[k] >= 0.0
  {
    if n == 0 then []
    else Samples(size, outs, n - 1) + (if outs[n - 1].Measured? then [Tflops(size, outs[n - 1].seconds)] else [])
  }

  predicate NoneRaised(outs: seq<Outcome>, n: nat)
    requires n <= |outs|
  {
    forall k :: 0 <= k < n ==> !outs[k].Raised?
  }

  /** Some attempt among the first n bound `c`. */
  predicate Multiplied(outs: seq<Outcome>, n: nat)
    requires n <= |outs|
  {
    n > 0 && (Multiplied(outs, n - 1) || MultipliedBy(outs[n - 1]))
  }

  /** Multiplied says that one of the attempts bound `c`. */
  lemma {:induction false} MultipliedMeansSomeAttempt(outs: seq<Outcome>, n: nat)
    requires n <= |outs|
    ensures Multiplied(outs, n) <==> exists k :: 0 <= k < n && MultipliedBy(outs[k])
  {
    if n > 0 {
      MultipliedMeansSomeAttempt(outs, n - 1);
      if MultipliedBy(outs[n - 1]) {
        assert 0 <= n - 1 < n && MultipliedBy(outs[n - 1]);
      }
    }
  }

  /** After the first n attempts the loop is still going: nothing escaped and the
      error count is still within the threshold. */
  predicate StillSampling(outs: seq<Outcome>, n: nat)
    requires n <= |outs|
  {
    NoneRaised(outs, n) && Failures(outs, n) <= ErrorThreshold
  }

  /** The loop consumes exactly the first n attempts: either the deadline came while it
      was still running, or the n-th attempt is the one that stopped it. */
  predicate StopsAt(outs: seq<Outcome>, n: nat) {
    n <= |outs| &&
    ((n == |outs| && StillSampling(outs, n)) ||
     (0 < n && StillSampling(outs, n - 1) && !StillSampling(outs, n)))
  }

  lemma {:induction false} FailuresMonotone(outs: seq<Outcome>, i: nat, j: nat)
    requires i <= j <= |outs|
    ensures Failures(outs, i) <= Failures(outs, j)
  {
    if i < j {
      FailuresMonotone(outs, i, j - 1);
    }
  }

  /** Once the loop has stopped it stays stopped: StillSampling holds of every shorter prefix. */
  lemma StillSamplingPrefix(outs: seq<Outcome>, i: nat, j: nat)
    requires i <= j <= |outs| && StillSampling(outs, j)
    ensures StillSampling(outs, i)
  {
    FailuresMonotone(outs, i, j);
  }

  /** The stopping point is unique. */
  lemma StopsAtUnique(outs: seq<Outcome>, n: nat, m: nat)
    requires StopsAt(outs, n) && StopsAt(outs, m)
    ensures n == m
  {
    if n < m {
      StillSamplingPrefix(outs, n, m - 1);
    } else if m < n {
      StillSamplingPrefix(outs, m, n - 1);
    }
  }

  function FirstStop(outs: seq<Outcome>, n: nat): (m: nat)
    requires n <= |outs| && StillSampling(outs, n) && !StillSampling(outs, |outs|)
    ensures StopsAt(outs, m)
    decreases |outs| - n
  {
    if !StillSampling(outs, n + 1) then n + 1 else FirstStop(outs, n + 1)
  }

  /** How many attempts the loop makes before it stops. */
  function StopPoint(outs: seq<Outcome>): (n: nat)
    ensures StopsAt(outs, n)
  {
    if StillSampling(outs, |outs|) then |outs| else FirstStop(outs, 0)
  }

  /** How the loop ended. */
  datatype LoopEnd = DeadlineReached | GaveUp(last: string) | Escaped(message: string)

  /** The `while` loop of `run_stress_test` over the attempts made before the deadline:
      every completed multiply adds a sample, every RuntimeError adds to the error
      count and the one that takes it past the threshold ends the loop; any other
      exception ends it too. */
  method SampleLoop(size: nat, outs: seq<Outcome>)
    returns (samples: seq<real>, iterations: nat, errors: nat, multiplied: bool, end: LoopEnd, consumed: nat)
    ensures StopsAt(outs, consumed)
    ensures samples == Samples(size, outs, consumed) && iterations == |samples|
    ensures errors == Failures(outs, consumed) && errors <= ErrorThreshold + 1
    ensures multiplied <==> Multiplied(outs, consumed)
    ensures end.GaveUp? <==> errors > ErrorThreshold
    ensures end.GaveUp? ==> outs[consumed - 1].Failed? && outs[consumed - 1].message == end.last
    ensures end.Escaped? <==> 0 < consumed && outs[consumed - 1].Raised?
    ensures end.Escaped? ==> outs[consumed - 1] == Raised(end.message)
  {
    samples, iterations, errors, multiplied, end := [], 0, 0, false, DeadlineReached;
    var i := 0;
    while i < |outs|
      invariant 0 <= i <= |outs|
      invariant StillSampling(outs, i)
      invariant samples == Samples(size, outs, i) && iterations == |samples|
      invariant errors == Failures(outs, i)
      invariant multiplied <==> Multiplied(outs, i)
    {
      match outs[i] {
        case Measured(t) =>
          samples := samples + [Tflops(size, t)];
          iterations := iterations + 1;
          multiplied := true;
        case Failed(m, bound) =>
          errors := errors + 1;
          multiplied := multiplied || bound;
          if errors > ErrorThreshold {
            end, consumed := GaveUp(m), i + 1;
            return;
          }
        case Raised(m) =>
          end, consumed := Escaped(m), i + 1;
          return;
      }
      i := i + 1;
    }
    consumed := i;
  }

  // ---------------------------------------------------------------------------
  // Aggregation

  /** `avg_tflops`, `min_tflops` and `max_tflops` of the report. */
  datatype Summary = Summary(avg: real, min: real, max: real)

  function Sum(xs: seq<real>): real {
    if xs == [] then 0.0 else xs[0] + Sum(xs[1..])
  }

  function MinOf(xs: seq<real>): (m: real)
    requires xs != []
    ensures m in xs && forall k :: 0 <= k < |xs| ==> m <= xs[k]
  {
    if |xs| == 1 then xs[0]
    else
      var rest := MinOf(xs[1..]);
      assert forall k :: 1 <= k < |xs| ==> xs[k] == xs[1..][k - 1];
      if xs[0] <= rest then xs[0] else rest
  }

  function MaxOf(xs: seq<real>): (m: real)
    requires xs != []
    ensures m in xs && forall k :: 0 <= k < |xs| ==> xs[k] <= m
  {
    if |xs| == 1 then xs[0]
    else
      var rest := MaxOf(xs[1..]);
      assert forall k :: 1 <= k < |xs| ==> xs[k] == xs[1..][k - 1];
      if xs[0] >= rest then xs[0] else rest
  }

  /** A sum of values between lo and hi lies between |xs| * lo and |xs| * hi. */
  lemma {:induction false} SumBounds(xs: seq<real>, lo: real, hi: real)
    requires forall k :: 0 <= k < |xs| ==> lo <= xs[k] <= hi
    ensures |xs| as real * lo <= Sum(xs) <= |xs| as real * hi
  {
    if xs != [] {
      assert forall k :: 0 <= k < |xs| - 1 ==> xs[1..][k] == xs[k + 1];
      SumBounds(xs[1..], lo, hi);
    }
  }

  lemma MeanBetween(sum: real, n: real, lo: real, hi: real)
    requires n > 0.0 && n * lo <= sum <= n * hi
    ensures lo <= sum / n <= hi
  {
    assert sum / n - lo == (sum - n * lo) / n;
    assert hi - sum / n == (n * hi - sum) / n;
  }

  lemma QuotientTimesDivisor(sum: real, n: real)
    requires n > 0.0
    ensures (sum / n) * n == sum
  {
  }

  /** The arithmetic mean of non-empty samples. */
  function Mean(xs: seq<real>): real
    requires xs != []
  {
    Sum(xs) / (|xs| as real)
  }

  /** The mean of samples lying between lo and hi lies between them too. */
  lemma MeanBounds(xs: seq<real>, lo: real, hi: real)
    requires xs != [] && forall k :: 0 <= k < |xs| ==> lo <= xs[k] <= hi
    ensures lo <= Mean(xs) <= hi
  {
    SumBounds(xs, lo, hi);
    MeanBetween(Sum(xs), |xs| as real, lo, hi);
  }

  /** The mean times the number of samples gives back their sum. */
  lemma MeanTimesCount(xs: seq<real>)
    requires xs != []
    ensures Mean(xs) * (|xs| as real) == Sum(xs)
  {
    QuotientTimesDivisor(Sum(xs), |xs| as real);
  }

  /** The summary of the samples: mean, minimum and maximum, or all 0.0 when there
      are none. The extremes are samples bounding all the others, and the mean lies
      between them. */
  function Stats(xs: seq<real>): (s: Summary)
    ensures xs == [] ==> s == Summary(0.0, 0.0, 0.0)
    ensures xs != [] ==> s.min in xs && s.max in xs && s.avg == Mean(xs)
    ensures forall k :: 0 <= k < |xs| ==> s.min <= xs[k] <= s.max
    ensures s.min <= s.avg <= s.max
  {
    if xs == [] then Summary(0.0, 0.0, 0.0)
    else
      MeanBounds(xs, MinOf(xs), MaxOf(xs));
      Summary(Mean(xs), MinOf(xs), MaxOf(xs))
  }

  // ---------------------------------------------------------------------------
  // run_stress_test and main

  /** The fields of the report; `durationSec` is the requested duration until the
      loop finishes normally, then the measured one. */
  datatype StressResult = StressResult(
    status: Status,
    durationSec: real,
    iterations: nat,
    errors: nat,
    avgTflops: real,
    minTflops: real,
    maxTflops: real,
    gpuTempStart: Option<string>,
    gpuTempEnd: Option<string>,
    errorMessage: Option<Message>)

  /** A report with the record's default field values. */
  function WithDefaults(status: Status, durationSec: real, errorMessage: Option<Message>): StressResult {
    StressResult(status, durationSec, 0, 0, 0.0, 0.0, 0.0, None, None, errorMessage)
  }

  /** The error count of the attempts the loop consumed never exceeds the threshold
      by more than one, and it exceeds it exactly when the loop stopped on the failed
      attempt that crossed it. */
  lemma ErrorCountBounded(outs: seq<Outcome>)
    ensures var n := StopPoint(outs);
            Failures(outs, n) <= ErrorThreshold + 1 &&
            (Failures(outs, n) > ErrorThreshold <==> 0 < n && outs[n - 1].Failed? && !StillSampling(outs, n))
  {
  }

  /** The report once the operands are allocated (the rest of the `try` block of
      `run_stress_test`), without the temperature readings. The loop consumes the
      first StopPoint(outs) attempts. An escaping exception forces status "error"
      with its text and skips the summary. Otherwise the measured duration and the
      summary are filled in and the status follows the error count; then the
      cleanup `del a, b, c` raises when no multiply bound `c`, and `empty_cache`
      may raise `cleanup`; either turns the report into "error" with that text. */
  function AllocatedReport(size: nat, durationSec: int, outs: seq<Outcome>, elapsed: real, cleanup: Option<string>)
    : (r: StressResult)
    ensures r.status != Running
    ensures r.errors <= ErrorThreshold + 1
    ensures r.iterations + r.errors <= |outs|
    ensures var n := StopPoint(outs);
            r.status == Error <==> (0 < n && outs[n - 1].Raised?) || !Multiplied(outs, n) || cleanup.Some?
    ensures r.status == Success <==> r.status != Error && r.errors == 0
    ensures var n := StopPoint(outs);
            r.errorMessage ==
              if 0 < n && outs[n - 1].Raised? then Some(Plain(outs[n - 1].message))
              else if !Multiplied(outs, n) then Some(UnboundResult)
              else if cleanup.Some? then Some(Plain(cleanup.value))
              else if Failures(outs, n) > ErrorThreshold then Some(TooManyErrors(outs[n - 1].message))
              else None
    ensures var n := StopPoint(outs);
            r.iterations == |Samples(size, outs, n)| && r.errors == Failures(outs, n)
    ensures var n := StopPoint(outs);
            0 < n && outs[n - 1].Raised? ==>
              r.durationSec == durationSec as real && r.avgTflops == 0.0 && r.minTflops == 0.0 && r.maxTflops == 0.0
    ensures var n := StopPoint(outs);
            var s := Stats(Samples(size, outs, n));
            !(0 < n && outs[n - 1].Raised?) ==>
              r.durationSec == elapsed && r.avgTflops == s.avg && r.minTflops == s.min && r.maxTflops == s.max
  {
    var n := StopPoint(outs);
    ErrorCountBounded(outs);
    var samples := Samples(size, outs, n);
    var errors := Failures(outs, n);
    var counted := WithDefaults(Running, durationSec as real, None).(iterations := |samples|, errors := errors);
    if n > 0 && outs[n - 1].Raised? then
      counted.(status := Error, errorMessage := Some(Plain(outs[n - 1].message)))
    else
      var s := Stats(samples);
      var finished := counted.(durationSec := elapsed, avgTflops := s.avg, minTflops := s.min, maxTflops := s.max);
      if !Multiplied(outs, n) then
        finished.(status := Error, errorMessage := Some(UnboundResult))
      else if cleanup.Some? then
        finished.(status := Error, errorMessage := Some(Plain(cleanup.value)))
      else
        finished.(status := if errors == 0 then Success else CompletedWithErrors,
                  errorMessage := if errors > ErrorThreshold then Some(TooManyErrors(outs[n - 1].message)) else None)
  }

  /** Without a failed attempt, an attempt that bound `c` is a completed one. */
  lemma {:induction false} CleanMultiplyIsSample(size: nat, outs: seq<Outcome>, n: nat)
    requires n <= |outs| && Failures(outs, n) == 0 && Multiplied(outs, n)
    ensures |Samples(size, outs, n)| >= 1
  {
    if !outs[n - 1].Measured? {
      CleanMultiplyIsSample(size, outs, n - 1);
    }
  }

  /** The "Too many errors" message is reported exactly when the loop broke on the
      failure past the threshold, some multiply bound `c`, and the cleanup succeeded. */
  lemma TooManyErrorsReported(size: nat, durationSec: int, outs: seq<Outcome>, elapsed: real, cleanup: Option<string>)
    ensures var r := AllocatedReport(size, durationSec, outs, elapsed, cleanup);
            var n := StopPoint(outs);
            (r.errors > ErrorThreshold && Multiplied(outs, n) && cleanup.None?) <==>
              (0 < n && outs[n - 1].Failed? &&
               r.errorMessage == Some(TooManyErrors(outs[n - 1].message)))
  {
    ErrorCountBounded(outs);
    var n := StopPoint(outs);
    if 0 < n && outs[n - 1].Failed? {
    }
  }

  /** The converse of SuccessMeansCleanRun: a loop that ended without an escaping
      exception, bound `c` and saw no RuntimeError, followed by a cleanup that did not
      raise, is reported as "success". */
  lemma CleanRunSucceeds(size: nat, durationSec: int, outs: seq<Outcome>, elapsed: real)
    requires var n := StopPoint(outs);
             !(0 < n && outs[n - 1].Raised?) && Multiplied(outs, n) && Failures(outs, n) == 0
    ensures AllocatedReport(size, durationSec, outs, elapsed, None).status == Success
  {
  }

  /** A run whose only attempt before the deadline completed reports "success" with
      one iteration and that attempt's throughput as mean, minimum and maximum. */
  lemma SingleAttemptRun(size: nat, durationSec: int, t: Seconds, elapsed: real)
    ensures var r := AllocatedReport(size, durationSec, [Measured(t)], elapsed, None);
            r.status == Success && r.iterations == 1 && r.errors == 0 &&
            r.avgTflops == Tflops(size, t) && r.minTflops == Tflops(size, t) && r.maxTflops == Tflops(size, t)
  {
    var outs := [Measured(t)];
    assert Failures(outs, 1) == 0 && Multiplied(outs, 1);
    assert StopsAt(outs, 1);
    StopsAtUnique(outs, 1, StopPoint(outs));
    assert Samples(size, outs, 1) == [Tflops(size, t)];
    MeanTimesCount([Tflops(size, t)]);
  }

  /** A failing `empty_cache` after a loop that bound `c` replaces whatever the run
      reported, even a clean one, by "error" with the exception's text. */
  lemma CleanupFailureReported(size: nat, durationSec: int, outs: seq<Outcome>, elapsed: real, m: string)
    ensures var r := AllocatedReport(size, durationSec, outs, elapsed, Some(m));
            var n := StopPoint(outs);
            !(0 < n && outs[n - 1].Raised?) && Multiplied(outs, n) ==>
              r.status == Error && r.errorMessage == Some(Plain(m)) && r.durationSec == elapsed
  {
  }

  /** A "success" report had no failed attempt, at least one sample, no message and
      a cleanup that succeeded. */
  lemma SuccessMeansCleanRun(size: nat, durationSec: int, outs: seq<Outcome>, elapsed: real, cleanup: Option<string>)
    requires AllocatedReport(size, durationSec, outs, elapsed, cleanup).status == Success
    ensures var r := AllocatedReport(size, durationSec, outs, elapsed, cleanup);
            r.errors == 0 && r.iterations >= 1 && r.errorMessage == None && cleanup.None? &&
            r.minTflops <= r.avgTflops <= r.maxTflops
  {
    var n := StopPoint(outs);
    CleanMultiplyIsSample(size, outs, n);
  }

  /** The `try` block of `run_stress_test` once both operands are allocated: run the
      loop, then fill in the duration and the summary, set the status, and clean up. */
  method AfterAllocation(size: nat, durationSec: int, outs: seq<Outcome>, elapsed: real, cleanup: Option<string>)
    returns (r: StressResult)
    ensures r == AllocatedReport(size, durationSec, outs, elapsed, cleanup)
  {
    r := WithDefaults(Running, durationSec as real, None);
    var samples, iterations, errors, multiplied, end, consumed := SampleLoop(size, outs);
    StopsAtUnique(outs, consumed, StopPoint(outs));
    r := r.(iterations := iterations, errors := errors);
    if end.Escaped? {
      r := r.(status := Error, errorMessage := Some(Plain(end.message)));
      return;
    }
    if end.GaveUp? {
      r := r.(errorMessage := Some(TooManyErrors(end.last)));
    }
    r := r.(durationSec := elapsed);
    if |samples| > 0 {
      var s := Stats(samples);
      r := r.(avgTflops := s.avg, minTflops := s.min, maxTflops := s.max);
    }
    r := r.(status := if errors == 0 then Success else CompletedWithErrors);
    // cleanup: `del a, b, c` fails when no multiply ever bound `c`; otherwise
    // `empty_cache` runs and may raise
    if !multiplied {
      r := r.(status := Error, errorMessage := Some(UnboundResult));
    } else if cleanup.Some? {
      r := r.(status := Error, errorMessage := Some(Plain(cleanup.value)));
    }
  }

  /** What the run cannot observe directly. */
  datatype StressEnv = StressEnv(
    torchPresent: bool,
    deviceAvailable: bool,
    smiBefore: Option<string>,
    smiAfter: Option<string>,
    allocation: Option<string>,
    outcomes: seq<Outcome>,
    elapsed: real,
    cleanup: Option<string>)

  /** `run_stress_test`. A size of 0.5 (a budget of 0 GiB) makes the tensor library
      refuse the allocation, so the environment then reports an allocation error. */
  method RunStressTest(durationSec: int, memoryLimitGb: nat, env: StressEnv) returns (r: StressResult)
    requires StressPlanFor(memoryLimitGb).Fractional? ==> env.allocation.Some?
    ensures !env.torchPresent ==> r == WithDefaults(Error, 0.0, Some(TorchMissing))
    ensures env.torchPresent && !env.deviceAvailable ==> r == WithDefaults(Error, 0.0, Some(NoDevice))
    ensures env.torchPresent && env.deviceAvailable ==>
      var temps := r.(gpuTempStart := None, gpuTempEnd := None);
      r.gpuTempStart == Temperature.TemperatureOf(env.smiBefore) &&
      r.gpuTempEnd == Temperature.TemperatureOf(env.smiAfter) &&
      if env.allocation.Some? then
        temps == WithDefaults(Error, durationSec as real, Some(Plain(env.allocation.value)))
      else
        temps == AllocatedReport(StressPlanFor(memoryLimitGb).size, durationSec, env.outcomes, env.elapsed, env.cleanup)
    ensures r.status != Running
  {
    if !env.torchPresent {
      return WithDefaults(Error, 0.0, Some(TorchMissing));
    }
    if !env.deviceAvailable {
      return WithDefaults(Error, 0.0, Some(NoDevice));
    }
    var plan := StressPlanFor(memoryLimitGb);
    r := WithDefaults(Running, durationSec as real, None);
    var before := Temperature.GpuTemp(env.smiBefore);
    if env.allocation.Some? {
      r := r.(status := Error, errorMessage := Some(Plain(env.allocation.value)));
    } else {
      r := AfterAllocation(plan.size, durationSec, env.outcomes, env.elapsed, env.cleanup);
    }
    r := r.(gpuTempStart := before);
    var after := Temperature.GpuTemp(env.smiAfter);
    r := r.(gpuTempEnd := after);
  }

  /** What `main` prints and returns: the report's fields, the `error_message`
      key when the message is non-empty, and the exit code. */
  datatype StressOutput = StressOutput(report: StressResult, errorMessage: Option<string>, exitCode: int)

  /** `main`: `error_message` is printed only when it is set and non-empty, and the
      exit code is 0 exactly for a successful run. */
  function StressMain(r: StressResult): (out: StressOutput)
    ensures out.exitCode == 0 <==> r.status == Success
    ensures out.errorMessage.Some? <==> r.errorMessage.Some? && r.errorMessage.value.Render() != ""
    ensures out.errorMessage.Some? ==> out.errorMessage.value == r.errorMessage.value.Render()
  {
    var shown := if r.errorMessage.Some? && r.errorMessage.value.Render() != "" then Some(r.errorMessage.value.Render()) else None;
    StressOutput(r, shown, ExitCode(r.status))
  }
}
