/** The hipBLAS facade: the hipBLAS entry points. Each except `GemmEx` checks
    its handle and forwards to the GEMM dispatch layer, and `Sgemm` turns a
    `std::exception` into a hipBLAS status; `GemmEx` never calls the
    dispatcher and fails for every non-null handle. */
module Hipblas {
  import opened Wrappers
  import Sycl
  import GEMM

  /** The statuses the facade produces. */
  datatype Status = Success | HandleIsNullptr | ExecutionFailed

  /** `hipblasOperation_t`. */
  datatype Operation = OpN | OpT | OpC

  /** `hipblasDatatype_t`, as far as the facade's signatures need it. */
  datatype Datatype = R8I | R32I | R16F | R32F

  /** `hipblasGemmAlgo_t`. */
  datatype GemmAlgo = GemmDefault

  /** How a facade call ends: with a status, or with an exception that does
      not derive from `std::exception` and so passes every `catch` clause. */
  datatype CallResult = Returned(status: Status) | Escaped(error: Sycl.Exception)

  /** The storage behind a `hipblasHandle_t*` out-parameter. */
  class HandleSlot {
    var handle: GEMM.Context?

    constructor ()
      ensures handle == null
    {
      handle := null;
    }
  }

  /** What the native stream query reports for a stream: its Level Zero
      handles, in the order driver, device, context, command queue. */
  datatype NativeStream = NativeStream(handles: seq<Sycl.NativeHandle>)

  /** Looks up the dispatcher operation that has the same meaning as `hop`. */
  function ToGEMMOp(hop: Operation): (r: GEMM.Operation)
    ensures hop == OpN <==> r == GEMM.N
    ensures hop == OpT <==> r == GEMM.T
    ensures hop == OpC <==> r == GEMM.C
  {
    match hop
    case OpN => GEMM.N
    case OpT => GEMM.T
    case OpC => GEMM.C
  }

  /** Through both translators every hipBLAS operation reaches the oneMKL
      transpose of the same name, and distinct operations stay distinct. */
  lemma ToGEMMOpThenToMKLOp(hop: Operation, hop2: Operation)
    ensures GEMM.ToMKLOp(ToGEMMOp(hop)) == match hop
                                           case OpN => Sycl.Nontrans
                                           case OpT => Sycl.Trans
                                           case OpC => Sycl.ConjTrans
    ensures GEMM.ToMKLOp(ToGEMMOp(hop)) == GEMM.ToMKLOp(ToGEMMOp(hop2)) ==> hop == hop2
  {
  }

  /** The status a gemm entry point gives for a dispatcher call that ended
      with `outcome`. */
  function StatusOf(outcome: GEMM.Outcome): CallResult {
    match outcome
    case Completed => Returned(Success)
    case Threw(e) => if Sycl.IsStdException(e) then Returned(ExecutionFailed) else Escaped(e)
  }

  /** Writes a new context through the out-parameter when it is non-null. */
  method Create(handle: HandleSlot?) returns (status: Status)
    modifies handle
    ensures status == Success <==> handle != null
    ensures status == HandleIsNullptr <==> handle == null
    ensures handle != null ==>
              fresh(handle.handle) && handle.handle.live && handle.handle.Bound() == GEMM.Unbound()
  {
    if handle != null {
      handle.handle := GEMM.Create();
    }
    status := if handle != null then Success else HandleIsNullptr;
  }

  /** Destroys the context behind a non-null handle. */
  method Destroy(handle: GEMM.Context?) returns (status: Status)
    requires handle != null ==> handle.live
    modifies handle
    ensures status == Success <==> handle != null
    ensures status == HandleIsNullptr <==> handle == null
    ensures handle != null ==> !handle.live
  {
    if handle != null {
      var ctxt := handle;
      GEMM.Destroy(ctxt);
    }
    status := if handle != null then Success else HandleIsNullptr;
  }

  /** The native stream query: fills the caller's buffer with the stream's
      handles and reports how many it wrote. */
  method StreamNativeInfo(stream: NativeStream, lzHandles: array<Sycl.NativeHandle>)
    returns (nHandles: int)
    requires |stream.handles| <= lzHandles.Length
    modifies lzHandles
    ensures nHandles == |stream.handles|
    ensures lzHandles[..nHandles] == stream.handles
  {
    var i := 0;
    while i < |stream.handles|
      invariant 0 <= i <= |stream.handles|
      invariant lzHandles[..i] == stream.handles[..i]
    {
      lzHandles[i] := stream.handles[i];
      i := i + 1;
    }
    nHandles := |stream.handles|;
  }

  /** Rebinds the context behind a non-null handle to the stream's native
      handles; the stream must report exactly four of them. */
  method SetStream(handle: GEMM.Context?, stream: NativeStream) returns (status: Status)
    requires handle != null ==> handle.live && |stream.handles| == 4
    modifies handle
    ensures status == Success <==> handle != null
    ensures status == HandleIsNullptr <==> handle == null
    ensures handle != null ==> handle.live && handle.Bound() == GEMM.Rebuilt(stream.handles)
  {
    if handle != null {
      var ctxt := handle;
      var lzHandles := new Sycl.NativeHandle[4];
      var nHandles := StreamNativeInfo(stream, lzHandles);
      GEMM.SetStream(ctxt, lzHandles, nHandles);
    }
    status := if handle != null then Success else HandleIsNullptr;
  }

  /** Single-precision gemm: a null handle is reported without calling the
      dispatcher; otherwise a `std::exception` from the dispatcher becomes
      ExecutionFailed and a normal return becomes Success. */
  method Sgemm(handle: GEMM.Context?, transa: Operation, transb: Operation,
               m: int, n: int, k: int,
               alpha: GEMM.HostFloat?, A: Sycl.DevicePtr, ldA: int,
               B: Sycl.DevicePtr, ldB: int,
               beta: GEMM.HostFloat?, C: Sycl.DevicePtr, ldC: int,
               backend: Sycl.Backend)
    returns (ret: CallResult, d: GEMM.Dispatch)
    requires handle != null ==> handle.live && alpha != null && beta != null
    ensures handle == null ==> d == GEMM.NoDispatch()
    ensures handle != null ==>
              d == GEMM.SubmitThenDrain(
                     Sycl.GemmCall(handle.queue, GEMM.ToMKLOp(ToGEMMOp(transa)), GEMM.ToMKLOp(ToGEMMOp(transb)),
                                   m, n, k, alpha.bits, A, Sycl.Single, ldA, B, Sycl.Single, ldB,
                                   beta.bits, C, Sycl.Single, ldC),
                     backend)
    ensures ret == Returned(HandleIsNullptr) <==> handle == null
    ensures handle != null ==> ret == StatusOf(d.outcome)
    ensures ret == Returned(Success) <==> handle != null && GEMM.FirstError(handle.queue, backend) == None
    ensures ret == Returned(ExecutionFailed) <==>
              handle != null && GEMM.FirstError(handle.queue, backend).Some?
              && Sycl.IsStdException(GEMM.FirstError(handle.queue, backend).value)
    ensures ret.Escaped? <==>
              handle != null && GEMM.FirstError(handle.queue, backend).Some?
              && !Sycl.IsStdException(GEMM.FirstError(handle.queue, backend).value)
    ensures ret.Escaped? ==> Some(ret.error) == GEMM.FirstError(handle.queue, backend)
  {
    var status := Success;
    d := GEMM.NoDispatch();
    if handle != null {
      var ctxt := handle;
      d := GEMM.SGEMM(ctxt, ToGEMMOp(transa), ToGEMMOp(transb), m, n, k,
                      alpha, A, ldA, B, ldB, beta, C, ldC, backend);
      GEMM.SubmitThenDrainOutcome(d.calls[0], backend);
      match d.outcome {
        case Completed =>
        case Threw(e) =>
          if Sycl.IsStdException(e) {
            status := ExecutionFailed;
          } else {
            // Not caught by `catch(std::exception const&)`.
            return Escaped(e), d;
          }
      }
    } else {
      status := HandleIsNullptr;
    }
    ret := Returned(status);
  }

  /** Mixed-precision gemm as compiled: the dispatcher is never called; a
      null handle is reported as such and any other handle as a failure. */
  method GemmEx(handle: GEMM.Context?, transa: Operation, transb: Operation,
                m: int, n: int, k: int,
                alpha: GEMM.HostFloat?, a: Sycl.DevicePtr, aType: Datatype, lda: int,
                b: Sycl.DevicePtr, bType: Datatype, ldb: int,
                beta: GEMM.HostFloat?, c: Sycl.DevicePtr, cType: Datatype, ldc: int,
                computeType: Datatype, algo: GemmAlgo)
    returns (ret: Status, d: GEMM.Dispatch)
    ensures ret == HandleIsNullptr <==> handle == null
    ensures ret == ExecutionFailed <==> handle != null
    ensures d.calls == [] && d.drained == []
  {
    ret := Success;
    d := GEMM.NoDispatch();
    if handle != null {
      ret := ExecutionFailed;
    } else {
      ret := HandleIsNullptr;
    }
  }

  /** If the backend only ever throws `std::exception`s, a gemm entry point
      always returns one of its statuses, and that status is Success exactly
      when neither the submission nor the wait threw and no asynchronous
      failure reached a handler installed on the queue. */
  method SgemmNeverEscapes(handle: GEMM.Context?, transa: Operation, transb: Operation,
                           m: int, n: int, k: int,
                           alpha: GEMM.HostFloat?, A: Sycl.DevicePtr, ldA: int,
                           B: Sycl.DevicePtr, ldB: int,
                           beta: GEMM.HostFloat?, C: Sycl.DevicePtr, ldC: int,
                           backend: Sycl.Backend)
    returns (status: Status)
    requires handle != null ==> handle.live && alpha != null && beta != null
    requires backend.submitError.Some? ==> Sycl.IsStdException(backend.submitError.value)
    requires backend.waitError.Some? ==> Sycl.IsStdException(backend.waitError.value)
    requires forall i :: 0 <= i < |backend.asyncErrors| ==> Sycl.IsStdException(backend.asyncErrors[i])
    ensures handle != null ==>
              status == (if backend.submitError.None? && backend.waitError.None?
                            && (!GEMM.HasHandler(handle.queue) || backend.asyncErrors == [])
                         then Success else ExecutionFailed)
    ensures handle == null ==> status == HandleIsNullptr
  {
    var ret, _ := Sgemm(handle, transa, transb, m, n, k, alpha, A, ldA, B, ldB, beta, C, ldC, backend);
    GEMM.HandlerReportsAllStd(backend.asyncErrors);
    status := ret.status;
  }

  /** After `SetStream`, the queue has no handler, so a gemm whose only
      failures are asynchronous is reported as Success and its failures go to
      the runtime's default handler, which is assumed to return. */
  method SgemmAfterSetStreamHidesAsyncErrors(handle: GEMM.Context, h: seq<Sycl.NativeHandle>,
                                             transa: Operation, transb: Operation,
                                             m: int, n: int, k: int,
                                             alpha: GEMM.HostFloat, A: Sycl.DevicePtr, ldA: int,
                                             B: Sycl.DevicePtr, ldB: int,
                                             beta: GEMM.HostFloat, C: Sycl.DevicePtr, ldC: int,
                                             backend: Sycl.Backend)
    returns (ret: CallResult, unhandled: seq<Sycl.Exception>)
    requires handle.live && |h| >= 4 && handle.Bound() == GEMM.Rebuilt(h)
    requires backend.submitError == None && backend.waitError == None
    ensures ret == Returned(Success)
    ensures unhandled == backend.asyncErrors
  {
    var d;
    ret, d := Sgemm(handle, transa, transb, m, n, k, alpha, A, ldA, B, ldB, beta, C, ldC, backend);
    GEMM.RebuiltQueueDropsAsyncErrors(h, d.calls[0], backend);
    unhandled := d.unhandled;
  }
}
