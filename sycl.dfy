/** The SYCL / Level Zero / oneMKL side of the shim. None of it lives in the
    repository: each backend object is a record of what it was built from,
    and what the backend does with a gemm is an oracle value. */
module Sycl {
  import opened Wrappers

  /** A native Level Zero handle, passed around as an `unsigned long`. */
  type NativeHandle = bv64

  /** The bit pattern of a 32-bit float; the shim only passes it through. */
  type Float32Bits = bv32

  /** An opaque device address of a matrix operand. */
  type DevicePtr = nat

  datatype Platform = DefaultPlatform | LzPlatform(driver: NativeHandle)

  datatype Device = DefaultDevice | LzDevice(platform: Platform, device: NativeHandle)

  datatype SyclContext = DefaultContext | LzContext(devices: seq<Device>, context: NativeHandle)

  /** The asynchronous-exception handler drafted beside the queue construction. */
  datatype AsyncHandler = ReportAllRethrowFirst

  datatype Queue =
    | DefaultQueue
    | LzQueue(context: SyclContext, queue: NativeHandle, handler: Option<AsyncHandler>)

  /** `oneapi::mkl::transpose`. */
  datatype Transpose = Nontrans | Trans | ConjTrans

  /** The storage type a typed gemm call reads its operands as. */
  datatype ElemType = Half | Single

  /** What the backend can throw: `sycl::exception` and other `std::exception`s
      carry a message; anything else thrown does not derive from `std::exception`. */
  datatype Exception =
    | SyclException(what: string)
    | StdException(what: string)
    | ForeignException

  /** Caught by a `catch(std::exception const&)` clause. */
  predicate IsStdException(e: Exception) {
    e.SyclException? || e.StdException?
  }

  /** One call of `oneapi::mkl::blas::gemm` on a queue, with the arguments it was given. */
  datatype GemmCall = GemmCall(
    queue: Queue,
    transa: Transpose, transb: Transpose,
    m: int, n: int, k: int,
    alpha: Float32Bits,
    a: DevicePtr, aType: ElemType, ldA: int,
    b: DevicePtr, bType: ElemType, ldB: int,
    beta: Float32Bits,
    c: DevicePtr, cType: ElemType, ldC: int)

  /** The backend oracle: whether the gemm submission throws; the errors the
      submitted work reports asynchronously, which `wait_and_throw` passes to
      an asynchronous-exception handler; and whether `wait_and_throw` throws
      by itself. */
  datatype Backend = Backend(submitError: Option<Exception>, asyncErrors: seq<Exception>,
                             waitError: Option<Exception>)
}
