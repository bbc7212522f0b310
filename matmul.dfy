/** The matrix-multiplication benchmark (tests/bench_matmul.py): bound the matrix
    dimension by the memory budget, keep the candidate sizes under that bound, time
    each size in ascending order until the first one that fails, and report the peak.

    The tensor library is an input: whether it can be imported, whether a device
    is available, and what timing ten back-to-back multiplies of each size give
    (or the RuntimeError they raise). */
module Matmul {
  import opened Common
  import opened IntMath

  /** The sizes tried, in ascending order. */
  const Candidates: seq<nat> := [512, 1024, 2048, 4096, 8192, 16384]
  /** Multiplies timed under one start/end bracket. */
  const TimedIterations: nat := 10


  // ---------------------------------------------------------------------------
  // Sizing

  /** `max_dim`: the largest n such that three FP16 n x n matrices fit in `gb` GiB. */
  function MaxDim(gb: nat): (d: nat)
    ensures MatrixCount * BytesPerElement * (d * d) <= gb * GiB
    ensures gb * GiB < MatrixCount * BytesPerElement * ((d + 1) * (d + 1))
  {
    var elements := (gb * GiB) / (MatrixCount * BytesPerElement);
    ISqrt(elements)
  }

  /** The bound is the unique d whose square, and no larger square, fits. */
  lemma MaxDimUnique(gb: nat, d: nat)
    requires MatrixCount * BytesPerElement * (d * d) <= gb * GiB
    requires gb * GiB < MatrixCount * BytesPerElement * ((d + 1) * (d + 1))
    ensures MaxDim(gb) == d
  {
    var elements := (gb * GiB) / (MatrixCount * BytesPerElement);
    ISqrtUnique(elements, d);
  }

  /** With 1 GiB the bound is 13377 and with 16 GiB it is 53509. */
  lemma MaxDimExamples()
    ensures MaxDim(1) == 13377 && MaxDim(16) == 53509
  {
    MaxDimUnique(1, 13377);
    MaxDimUnique(16, 53509);
  }

  /** A larger budget never lowers the bound. */
  lemma MaxDimMonotone(gb1: nat, gb2: nat)
    requires gb1 <= gb2
    ensures MaxDim(gb1) <= MaxDim(gb2)
  {
    var e1 := (gb1 * GiB) / (MatrixCount * BytesPerElement);
    var e2 := (gb2 * GiB) / (MatrixCount * BytesPerElement);
    assert gb1 * GiB <= gb2 * GiB;
    ISqrtMonotone(e1, e2);
  }

  predicate Ascending(xs: seq<nat>) {
    forall i, j :: 0 <= i < j < |xs| ==> xs[i] < xs[j]
  }

  /** `[s for s in xs if s <= bound]`. */
  function KeepAtMost(xs: seq<nat>, bound: nat): (r: seq<nat>)
    ensures |r| <= |xs|
    ensures forall x :: x in r <==> x in xs && x <= bound
  {
    if xs == [] then []
    else (if xs[0] <= bound then [xs[0]] else []) + KeepAtMost(xs[1..], bound)
  }

  /** Filtering an ascending list by an upper bound keeps a prefix of it and drops
      everything after that prefix. */
  lemma {:induction false} KeepAtMostAscending(xs: seq<nat>, bound: nat)
    requires Ascending(xs)
    ensures var r := KeepAtMost(xs, bound);
            r == xs[..|r|] && forall i :: |r| <= i < |xs| ==> xs[i] > bound
  {
    if xs != [] {
      assert Ascending(xs[1..]);
      KeepAtMostAscending(xs[1..], bound);
      var rest := KeepAtMost(xs[1..], bound);
      if xs[0] > bound {
        assert forall k :: 0 <= k < |xs| - 1 ==> xs[1..][k] > bound;
        assert forall k :: 0 <= k < |rest| ==> rest[k] in rest;
      } else {
        assert [xs[0]] + xs[1..][..|rest|] == xs[..|rest| + 1];
      }
    }
  }

  /** `test_sizes`: the candidates no larger than the bound, in order. Because the
      candidates ascend, they form a prefix of the candidate list, and every
      candidate after it exceeds the bound. */
  function TestSizes(maxDim: nat): (sizes: seq<nat>)
    ensures |sizes| <= |Candidates|
    ensures sizes == Candidates[..|sizes|]
    ensures forall s :: s in sizes ==> s <= maxDim
    ensures forall i :: |sizes| <= i < |Candidates| ==> Candidates[i] > maxDim
  {
    KeepAtMostAscending(Candidates, maxDim);
    KeepAtMost(Candidates, maxDim)
  }

  /** A dropped candidate means every larger candidate is dropped too. */
  lemma TestSizesPrefixClosed(maxDim: nat, i: nat, j: nat)
    requires i <= j < |Candidates| && Candidates[i] !in TestSizes(maxDim)
    ensures Candidates[j] !in TestSizes(maxDim)
  {
  }

  /** The kept sizes are exactly the first n candidates when those n fit under the
      bound and the rest do not. */
  lemma TestSizesCount(maxDim: nat, n: nat)
    requires n <= |Candidates|
    requires forall i :: 0 <= i < n ==> Candidates[i] <= maxDim
    requires forall i :: n <= i < |Candidates| ==> Candidates[i] > maxDim
    ensures TestSizes(maxDim) == Candidates[..n]
  {
    var sizes := TestSizes(maxDim);
    assert n < |Candidates| ==> Candidates[n] > maxDim;
    assert |sizes| < |Candidates| ==> Candidates[|sizes|] > maxDim;
    assert n < |Candidates| ==> Candidates[n] !in sizes;
    assert |sizes| == n;
  }

  /** Which sizes each budget tries: none with 0 GiB, all but 16384 with 1 GiB, and
      every candidate from 2 GiB on. */
  lemma TestSizesByBudget(gb: nat)
    ensures TestSizes(MaxDim(gb)) ==
            if gb == 0 then [] else if gb == 1 then Candidates[..5] else Candidates
  {
    var d := MaxDim(gb);
    if gb == 0 {
      MaxDimUnique(gb, 0);
      TestSizesCount(d, 0);
    } else if gb == 1 {
      MaxDimUnique(gb, 13377);
      TestSizesCount(d, 5);
    } else {
      MaxDimUnique(2, 18918);
      MaxDimMonotone(2, gb);
      TestSizesCount(d, 6);
      assert Candidates[..6] == Candidates;
    }
  }

  // ---------------------------------------------------------------------------
  // The per-size loop

  /** What the warm-up and ten timed multiplies of one size give: the total time of
      the ten, or the RuntimeError's text. */
  datatype SizeOutcome = Timed(total: Seconds) | SizeFailed(message: string)

  /** An entry of `benchmarks` (its `dtype` is always "float16"). */
  datatype Entry = Timing(size: nat, timeMs: real, tflops: real) | SizeError(size: nat, message: string)

  /** The entry a size's outcome produces: the time of one multiply is the bracketed
      total over the ten, in milliseconds, and the throughput is 2 * size^3 FLOPs
      over that time. */
  function EntryFor(size: nat, o: SizeOutcome): (e: Entry)
    ensures e.size == size
    ensures e.Timing? <==> o.Timed?
    ensures e.Timing? ==> e.timeMs * (TimedIterations as real) == o.total * 1000.0
    ensures e.Timing? ==> e.tflops * (o.total / TimedIterations as real) * 1000000000000.0 == Flops(size) as real
    ensures e.SizeError? ==> e.message == o.message
  {
    match o
    case Timed(total) =>
      var elapsed: Seconds := total / TimedIterations as real;
      Timing(size, elapsed * 1000.0, Tflops(size, elapsed))
    case SizeFailed(m) => SizeError(size, m)
  }

  /** `b` is what the loop leaves in `benchmarks`: the entries of a prefix of `sizes`,
      in order; every entry but the last comes from a successful size; and the loop
      stops before the end only right after a failure. */
  predicate IsSweep(sizes: seq<nat>, gpu: nat -> SizeOutcome, b: seq<Entry>) {
    |b| <= |sizes| &&
    (forall k :: 0 <= k < |b| ==> b[k] == EntryFor(sizes[k], gpu(sizes[k]))) &&
    (forall k :: 0 <= k < |b| - 1 ==> gpu(sizes[k]).Timed?) &&
    (|b| < |sizes| ==> |b| > 0 && gpu(sizes[|b| - 1]).SizeFailed?)
  }

  /** The sweep is determined by the sizes and the outcomes. */
  lemma SweepUnique(sizes: seq<nat>, gpu: nat -> SizeOutcome, b1: seq<Entry>, b2: seq<Entry>)
    requires IsSweep(sizes, gpu, b1) && IsSweep(sizes, gpu, b2)
    ensures b1 == b2
  {
  }

  /** At most one error entry, and only at the end; a size after a failure is never
      attempted; with no failure every size has a timing. */
  lemma SweepShape(sizes: seq<nat>, gpu: nat -> SizeOutcome, b: seq<Entry>)
    requires IsSweep(sizes, gpu, b)
    ensures forall k :: 0 <= k < |b| - 1 ==> b[k].Timing?
    ensures forall k :: 0 <= k < |b| && b[k].SizeError? ==> k == |b| - 1
    ensures (forall k :: 0 <= k < |sizes| ==> gpu(sizes[k]).Timed?) ==>
              |b| == |sizes| && forall k :: 0 <= k < |b| ==> b[k].Timing?
  {
  }

  // ---------------------------------------------------------------------------
  // Peak selection

  datatype Peak = Peak(tflops: real, size: nat)

  /** The position `max(successful, key=tflops)` picks: the first timing entry whose
      throughput is not exceeded by any other. */
  function PeakIndex(b: seq<Entry>): (p: Option<nat>)
    ensures p.None? <==> forall k :: 0 <= k < |b| ==> !b[k].Timing?
    ensures p.Some? ==> p.value < |b| && b[p.value].Timing?
    ensures p.Some? ==> forall k :: 0 <= k < |b| && b[k].Timing? ==> b[k].tflops <= b[p.value].tflops
    ensures p.Some? ==> forall k :: 0 <= k < p.value && b[k].Timing? ==> b[k].tflops < b[p.value].tflops
  {
    if b == [] then None
    else
      var rest := PeakIndex(b[1..]);
      assert forall k :: 1 <= k < |b| ==> b[k] == b[1..][k - 1];
      if rest.None? then
        if b[0].Timing? then Some(0) else None
      else if b[0].Timing? && b[0].tflops >= b[1 + rest.value].tflops then Some(0)
      else Some(1 + rest.value)
  }

  /** `peak_tflops` and `peak_size`, present exactly when some size succeeded. */
  function PeakOf(b: seq<Entry>): (p: Option<Peak>)
    ensures p.Some? <==> exists k :: 0 <= k < |b| && b[k].Timing?
    ensures p.Some? ==> forall k :: 0 <= k < |b| && b[k].Timing? ==> b[k].tflops <= p.value.tflops
    ensures p.Some? ==> exists k :: 0 <= k < |b| && b[k].Timing? && p.value == Peak(b[k].tflops, b[k].size) &&
                                    forall j :: 0 <= j < k && b[j].Timing? ==> b[j].tflops < b[k].tflops
  {
    match PeakIndex(b)
    case None => None
    case Some(i) => Some(Peak(b[i].tflops, b[i].size))
  }

  // ---------------------------------------------------------------------------
  // run_benchmark and main

  /** The fields of the report that the model keeps; `None` for a key that is absent.
      The version strings, `cuda_available` and the device name and count are not modelled. */
  datatype BenchReport = BenchReport(
    status: Status,
    error: Option<string>,
    benchmarks: Option<seq<Entry>>,
    memoryLimitGb: Option<nat>,
    maxMatrixDim: Option<nat>,
    testSizes: Option<seq<nat>>,
    peak: Option<Peak>)

  /** The `for size in test_sizes` loop: time each size in order, record its entry,
      and stop after the first size that fails. */
  method Sweep(sizes: seq<nat>, gpu: nat -> SizeOutcome) returns (benchmarks: seq<Entry>)
    ensures IsSweep(sizes, gpu, benchmarks)
  {
    benchmarks := [];
    for i := 0 to |sizes|
      invariant |benchmarks| == i
      invariant forall k :: 0 <= k < i ==> benchmarks[k] == EntryFor(sizes[k], gpu(sizes[k]))
      invariant forall k :: 0 <= k < i ==> gpu(sizes[k]).Timed?
    {
      match gpu(sizes[i]) {
        case Timed(total) =>
          var elapsed: Seconds := total / TimedIterations as real;
          benchmarks := benchmarks + [Timing(sizes[i], elapsed * 1000.0, Tflops(sizes[i], elapsed))];
        case SizeFailed(m) =>
          benchmarks := benchmarks + [SizeError(sizes[i], m)];
          break;
      }
    }
  }

  /** `run_benchmark`: a per-size failure ends the sweep but leaves the status "success";
      only a missing library or device makes it "error". */
  method RunBenchmark(memoryLimitGb: nat, torchPresent: bool, deviceAvailable: bool, gpu: nat -> SizeOutcome)
    returns (r: BenchReport)
    ensures ExitCode(r.status) == 0 <==> torchPresent && deviceAvailable
    ensures r.status == Success || r.status == Error
    ensures !torchPresent ==> r == BenchReport(Error, Some(TorchMissingText), None, None, None, None, None)
    ensures torchPresent && !deviceAvailable ==>
              r == BenchReport(Error, Some(NoDeviceText), Some([]), None, None, None, None)
    ensures torchPresent && deviceAvailable ==>
              var maxDim := MaxDim(memoryLimitGb);
              var sizes := TestSizes(maxDim);
              r.error == None && r.memoryLimitGb == Some(memoryLimitGb) &&
              r.maxMatrixDim == Some(maxDim) && r.testSizes == Some(sizes) &&
              r.benchmarks.Some? && IsSweep(sizes, gpu, r.benchmarks.value) &&
              r.peak == PeakOf(r.benchmarks.value)
  {
    if !torchPresent {
      return BenchReport(Error, Some(TorchMissingText), None, None, None, None, None);
    }
    r := BenchReport(Success, None, Some([]), None, None, None, None);
    if !deviceAvailable {
      return r.(status := Error, error := Some(NoDeviceText));
    }
    var maxDim := MaxDim(memoryLimitGb);
    var sizes := TestSizes(maxDim);
    r := r.(memoryLimitGb := Some(memoryLimitGb), maxMatrixDim := Some(maxDim), testSizes := Some(sizes));
    var benchmarks := Sweep(sizes, gpu);
    r := r.(benchmarks := Some(benchmarks), peak := PeakOf(benchmarks));
  }
}
