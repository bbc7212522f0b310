/** Vocabulary shared by the two scripts: optional values, the report status,
    the process exit code, and the FLOP arithmetic of one FP16 matrix multiply. */
module Common {

  datatype Option<+T> = None | Some(value: T)

  /** The `status` field of both reports. */
  datatype Status = Running | Success | CompletedWithErrors | Error {
    function Text(): string {
      match this
      case Running => "running"
      case Success => "success"
      case CompletedWithErrors => "completed_with_errors"
      case Error => "error"
    }
  }

  /** Both `main` functions return 0 when the top-level status is "success" and 1 otherwise. */
  function ExitCode(status: Status): (code: int)
    ensures code == 0 || code == 1
    ensures code == 0 <==> status.Text() == "success"
  {
    if status == Success then 0 else 1
  }

  /** The fixed `error` texts of both scripts when the tensor library is missing and
      when it sees no GPU. */
  const TorchMissingText := "PyTorch not installed"
  const NoDeviceText := "CUDA/ROCm not available"

  /** A measured wall-clock duration; a zero duration would make the scripts divide by zero. */
  type Seconds = t: real | t > 0.0 witness 1.0

  const GiB: nat := 1024 * 1024 * 1024
  /** Bytes per FP16 element, and the three matrices A, B and C = A x B. */
  const BytesPerElement: nat := 2
  const MatrixCount: nat := 3

  /** Floating-point operations of one n x n by n x n multiply: one multiply and one add per term. */
  function Flops(n: nat): nat
  {
    2 * n * n * n
  }

  /** Throughput in TFLOPS of an n x n multiply that took `elapsed` seconds. */
  function Tflops(n: nat, elapsed: Seconds): (t: real)
    ensures t * elapsed * 1000000000000.0 == Flops(n) as real
    ensures t >= 0.0
  {
    Flops(n) as real / elapsed / 1000000000000.0
  }

  /** Throughput is inversely proportional to time: twice the time, half the TFLOPS. */
  lemma TflopsHalvesWhenTimeDoubles(n: nat, elapsed: Seconds)
    ensures Tflops(n, 2.0 * elapsed) * 2.0 == Tflops(n, elapsed)
  {
    var t1, t2 := Tflops(n, elapsed), Tflops(n, 2.0 * elapsed);
    assert (t2 * 2.0) * elapsed * 1000000000000.0 == t1 * elapsed * 1000000000000.0;
    assert (t2 * 2.0 - t1) * (elapsed * 1000000000000.0) == 0.0;
  }
}
