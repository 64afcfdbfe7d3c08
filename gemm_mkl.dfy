/** The GEMM dispatch layer: an execution context that owns the SYCL
    platform, device, context and queue, the rebinding of those four
    objects onto a caller's Level Zero handles, and the two gemm entry
    points that submit one oneMKL gemm and then drain the queue. */
module GEMM {
  import opened Wrappers
  import Sycl

  /** `GEMM::Operation`: N = 0, T = 1, C = 2. */
  datatype Operation = N | T | C

  /** The datatype tags of the mixed-precision entry point. */
  datatype Datatype = Real8I | Real32I | Real16F | Real32F

  /** The algorithm selector; only `Default` is meaningful to the source. */
  datatype GemmAlgorithm = Default | Other

  /** A host `float` that a scalar argument points to. */
  class HostFloat {
    var bits: Sycl.Float32Bits

    constructor (bits: Sycl.Float32Bits)
      ensures this.bits == bits
    {
      this.bits := bits;
    }
  }

  // ---------------------------------------------------------------------------
  // Operation translation
  // ---------------------------------------------------------------------------

  /** Looks up the oneMKL transpose that has the same meaning as `op`. */
  function ToMKLOp(op: Operation): (r: Sycl.Transpose)
    ensures op == N <==> r == Sycl.Nontrans
    ensures op == T <==> r == Sycl.Trans
    ensures op == C <==> r == Sycl.ConjTrans
  {
    match op
    case N => Sycl.Nontrans
    case T => Sycl.Trans
    case C => Sycl.ConjTrans
  }

  /** The reverse lookup, from the oneMKL vocabulary back to `Operation`. */
  function FromMKLOp(t: Sycl.Transpose): Operation {
    match t
    case Nontrans => N
    case Trans => T
    case ConjTrans => C
  }

  lemma ToMKLOpRoundTrip(op: Operation, t: Sycl.Transpose)
    ensures FromMKLOp(ToMKLOp(op)) == op
    ensures ToMKLOp(FromMKLOp(t)) == t
  {
  }

  lemma ToMKLOpInjective(op1: Operation, op2: Operation)
    ensures ToMKLOp(op1) == ToMKLOp(op2) ==> op1 == op2
  {
    ToMKLOpRoundTrip(op1, Sycl.Nontrans);
    ToMKLOpRoundTrip(op2, Sycl.Nontrans);
  }

  // ---------------------------------------------------------------------------
  // The execution context
  // ---------------------------------------------------------------------------

  /** The four backend objects a context holds, as one value. */
  datatype Backends = Backends(
    platform: Sycl.Platform,
    device: Sycl.Device,
    context: Sycl.SyclContext,
    queue: Sycl.Queue)

  /** The default-constructed, unbound objects a new context starts with. */
  function Unbound(): Backends {
    Backends(Sycl.DefaultPlatform, Sycl.DefaultDevice, Sycl.DefaultContext, Sycl.DefaultQueue)
  }

  /** The objects rebuilt from Level Zero handles given in the order driver,
      device, context, command queue: each built from the one before it. */
  function Rebuilt(h: seq<Sycl.NativeHandle>): Backends
    requires |h| >= 4
  {
    var platform := Sycl.LzPlatform(h[0]);
    var device := Sycl.LzDevice(platform, h[1]);
    var context := Sycl.LzContext([device], h[2]);
    Backends(platform, device, context, Sycl.LzQueue(context, h[3], None))
  }

  /** The native handles a rebuilt queue was made from, read back along its
      chain of construction. */
  function HandlesOf(q: Sycl.Queue): seq<Sycl.NativeHandle> {
    if q.LzQueue? && q.context.LzContext? && |q.context.devices| == 1
       && q.context.devices[0].LzDevice? && q.context.devices[0].platform.LzPlatform?
    then [q.context.devices[0].platform.driver, q.context.devices[0].device, q.context.context, q.queue]
    else []
  }

  /** The queue alone determines all four handles of a rebind, so two rebinds
      from different handles never leave equal queues. */
  lemma RebuiltQueueRecordsHandles(h: seq<Sycl.NativeHandle>)
    requires |h| >= 4
    ensures HandlesOf(Rebuilt(h).queue) == h[..4]
    ensures Rebuilt(h).queue.context == Rebuilt(h).context
    ensures Rebuilt(h).context.devices == [Rebuilt(h).device]
    ensures Rebuilt(h).device.platform == Rebuilt(h).platform
  {
  }

  /** A rebind replaces every one of the four objects, and installs no
      asynchronous-exception handler on the queue. */
  lemma RebuiltReplacesAll(h: seq<Sycl.NativeHandle>)
    requires |h| >= 4
    ensures Rebuilt(h).platform != Unbound().platform
    ensures Rebuilt(h).device != Unbound().device
    ensures Rebuilt(h).context != Unbound().context
    ensures Rebuilt(h).queue != Unbound().queue
    ensures Rebuilt(h).queue.handler == None
  {
  }

  lemma {:induction false} RebuiltInjective(h1: seq<Sycl.NativeHandle>, h2: seq<Sycl.NativeHandle>)
    requires |h1| >= 4 && |h2| >= 4
    ensures Rebuilt(h1) == Rebuilt(h2) ==> h1[..4] == h2[..4]
  {
    RebuiltQueueRecordsHandles(h1);
    RebuiltQueueRecordsHandles(h2);
  }

  /** `GEMM::Context`. `live` is the allocation state: set by `Create`,
      cleared by `Destroy`. */
  class Context {
    var platform: Sycl.Platform
    var device: Sycl.Device
    var context: Sycl.SyclContext
    var queue: Sycl.Queue
    ghost var live: bool

    function Bound(): Backends
      reads this
    {
      Backends(platform, device, context, queue)
    }

    constructor ()
      ensures live && Bound() == Unbound()
    {
      platform := Sycl.DefaultPlatform;
      device := Sycl.DefaultDevice;
      context := Sycl.DefaultContext;
      queue := Sycl.DefaultQueue;
      live := true;
    }
  }

  /** Allocates a context bound to the default backend objects. */
  method Create() returns (ctxt: Context)
    ensures fresh(ctxt) && ctxt.live && ctxt.Bound() == Unbound()
  {
    ctxt := new Context();
  }

  /** Deletes a context; deleting null does nothing. A context may be deleted once. */
  method Destroy(ctxt: Context?)
    requires ctxt != null ==> ctxt.live
    modifies ctxt
    ensures ctxt != null ==> !ctxt.live && ctxt.Bound() == old(ctxt.Bound())
  {
    if ctxt != null {
      ctxt.live := false;
    }
  }

  /** Rebuilds the context's platform, device, context and queue from the
      caller's Level Zero handles, in that order. A null context is left alone;
      otherwise exactly four handles must be supplied. */
  method SetStream(ctxt: Context?, lzHandles: array?<Sycl.NativeHandle>, nHandles: int)
    requires ctxt != null ==> ctxt.live && nHandles == 4 && lzHandles != null && lzHandles.Length >= 4
    modifies ctxt
    ensures ctxt != null ==> ctxt.live && ctxt.Bound() == Rebuilt(lzHandles[..4])
  {
    if ctxt != null {
      var hDriver, hDevice, hContext, hQueue := lzHandles[0], lzHandles[1], lzHandles[2], lzHandles[3];
      ctxt.platform := Sycl.LzPlatform(hDriver);
      ctxt.device := Sycl.LzDevice(ctxt.platform, hDevice);
      var devs := [ctxt.device];
      ctxt.context := Sycl.LzContext(devs, hContext);
      // The drafted AsyncExceptionHandler is not passed to the queue.
      ctxt.queue := Sycl.LzQueue(ctxt.context, hQueue, None);
    }
  }

  /** Two rebinds in a row leave exactly the second binding. */
  method RebindTwice(ctxt: Context, first: array<Sycl.NativeHandle>, second: array<Sycl.NativeHandle>)
    requires ctxt.live && first.Length >= 4 && second.Length >= 4
    modifies ctxt
    ensures ctxt.live && ctxt.Bound() == Rebuilt(second[..4])
    ensures HandlesOf(ctxt.queue) == second[..4]
  {
    SetStream(ctxt, first, 4);
    SetStream(ctxt, second, 4);
    RebuiltQueueRecordsHandles(second[..4]);
  }

  // ---------------------------------------------------------------------------
  // The drafted asynchronous-exception handler
  // ---------------------------------------------------------------------------

  /** The number of leading exceptions that derive from `std::exception`. */
  function StdPrefix(es: seq<Sycl.Exception>): (n: nat)
    ensures n <= |es|
    ensures forall i :: 0 <= i < n ==> Sycl.IsStdException(es[i])
    ensures n < |es| ==> !Sycl.IsStdException(es[n])
  {
    if es == [] || !Sycl.IsStdException(es[0]) then 0 else 1 + StdPrefix(es[1..])
  }

  /** What the handler throws: the first exception it cannot report (one not
      derived from `std::exception` escapes the reporting loop), otherwise the
      first exception of the list, and nothing for an empty list. */
  function HandlerThrows(es: seq<Sycl.Exception>): Option<Sycl.Exception> {
    if StdPrefix(es) < |es| then Some(es[StdPrefix(es)])
    else if es == [] then None
    else Some(es[0])
  }

  /** Reports the exceptions in list order, then rethrows the first one. */
  method AsyncExceptionHandler(exceptions: seq<Sycl.Exception>)
    returns (reported: seq<Sycl.Exception>, thrown: Option<Sycl.Exception>)
    ensures reported == exceptions[..StdPrefix(exceptions)]
    ensures thrown == HandlerThrows(exceptions)
  {
    reported, thrown := [], None;
    var i := 0;
    while i < |exceptions| && thrown == None
      invariant 0 <= i <= |exceptions|
      invariant thrown == None ==> reported == exceptions[..i]
      invariant thrown == None ==> forall j :: 0 <= j < i ==> Sycl.IsStdException(exceptions[j])
      invariant thrown != None ==> 0 < i && thrown == Some(exceptions[i - 1])
      invariant thrown != None ==> !Sycl.IsStdException(exceptions[i - 1])
      invariant thrown != None ==> reported == exceptions[..i - 1]
      invariant thrown != None ==> forall j :: 0 <= j < i - 1 ==> Sycl.IsStdException(exceptions[j])
    {
      var e := exceptions[i];
      if Sycl.IsStdException(e) {
        reported := reported + [e];
      } else {
        thrown := Some(e);
      }
      i := i + 1;
    }
    // The second loop of the handler rethrows on its first iteration.
    if thrown == None && |exceptions| > 0 {
      thrown := Some(exceptions[0]);
    }
  }

  /** When every exception is a `std::exception`, all are reported in order
      and the first is rethrown. */
  lemma HandlerReportsAllStd(es: seq<Sycl.Exception>)
    requires forall i :: 0 <= i < |es| ==> Sycl.IsStdException(es[i])
    ensures es[..StdPrefix(es)] == es
    ensures HandlerThrows(es) == if es == [] then None else Some(es[0])
  {
  }

  /** The handler throws exactly when the list is non-empty, and what it
      throws is one of the listed exceptions. */
  lemma HandlerThrowsIffNonEmpty(es: seq<Sycl.Exception>)
    ensures HandlerThrows(es).Some? <==> es != []
    ensures HandlerThrows(es).Some? ==> HandlerThrows(es).value in es
  {
  }

  // ---------------------------------------------------------------------------
  // Submitting a gemm
  // ---------------------------------------------------------------------------

  datatype Outcome = Completed | Threw(error: Sycl.Exception)

  /** What a dispatcher call did: the gemm calls it made, the queues it
      drained, the asynchronous errors the drain handed to the runtime's
      default handler instead of to the caller, and how it ended. */
  datatype Dispatch = Dispatch(calls: seq<Sycl.GemmCall>, drained: seq<Sycl.Queue>,
                               unhandled: seq<Sycl.Exception>, outcome: Outcome)

  function NoDispatch(): Dispatch {
    Dispatch([], [], [], Completed)
  }

  /** Whether the queue was given an asynchronous-exception handler. */
  predicate HasHandler(q: Sycl.Queue) {
    q.LzQueue? && q.handler.Some?
  }

  /** What `wait_and_throw` on `q` throws: its own error if it has one;
      otherwise, when the queue has the handler, what the handler throws for
      the pending asynchronous errors; a queue without a handler passes them
      to the runtime's default handler, assumed here to return, and nothing
      reaches the caller. */
  function DrainError(q: Sycl.Queue, backend: Sycl.Backend): Option<Sycl.Exception> {
    if backend.waitError.Some? then backend.waitError
    else if HasHandler(q) then HandlerThrows(backend.asyncErrors)
    else None
  }

  /** The asynchronous errors a drain of `q` hands to the runtime's default
      handler. */
  function Unhandled(q: Sycl.Queue, backend: Sycl.Backend): seq<Sycl.Exception> {
    if backend.waitError.None? && !HasHandler(q) then backend.asyncErrors else []
  }

  /** The error a submit-then-drain sequence on `q` ends with, if any. */
  function FirstError(q: Sycl.Queue, backend: Sycl.Backend): Option<Sycl.Exception> {
    if backend.submitError.Some? then backend.submitError else DrainError(q, backend)
  }

  /** One gemm submission; an exception it throws is rethrown unchanged and
      the queue is not drained; otherwise the queue is drained, and an error
      surfaced there is thrown. */
  function SubmitThenDrain(call: Sycl.GemmCall, backend: Sycl.Backend): Dispatch {
    match backend.submitError
    case Some(e) => Dispatch([call], [], [], Threw(e))
    case None =>
      var err := DrainError(call.queue, backend);
      Dispatch([call], [call.queue], Unhandled(call.queue, backend),
               if err.Some? then Threw(err.value) else Completed)
  }

  lemma SubmitThenDrainOutcome(call: Sycl.GemmCall, backend: Sycl.Backend)
    ensures SubmitThenDrain(call, backend).calls == [call]
    ensures SubmitThenDrain(call, backend).drained == (if backend.submitError.None? then [call.queue] else [])
    ensures SubmitThenDrain(call, backend).outcome == Completed <==> FirstError(call.queue, backend).None?
    ensures SubmitThenDrain(call, backend).outcome.Threw? ==>
              Some(SubmitThenDrain(call, backend).outcome.error) == FirstError(call.queue, backend)
  {
  }

  /** On a queue rebuilt by `SetStream`, which has no handler, asynchronous
      gemm failures never reach the caller: the call completes whatever they
      are, and all of them go to the runtime's default handler, assumed
      here to return. */
  lemma RebuiltQueueDropsAsyncErrors(h: seq<Sycl.NativeHandle>, call: Sycl.GemmCall,
                                     backend: Sycl.Backend)
    requires |h| >= 4 && call.queue == Rebuilt(h).queue
    requires backend.submitError == None && backend.waitError == None
    ensures SubmitThenDrain(call, backend).outcome == Completed
    ensures SubmitThenDrain(call, backend).unhandled == backend.asyncErrors
    ensures FirstError(call.queue, backend) == FirstError(call.queue, backend.(asyncErrors := []))
  {
    RebuiltReplacesAll(h);
  }

  /** Had the drafted handler been installed, the drain would surface the
      asynchronous failures: it throws exactly when there are some, and
      throws the first when all derive from `std::exception`. */
  lemma InstalledHandlerSurfacesAsyncErrors(call: Sycl.GemmCall, backend: Sycl.Backend)
    requires HasHandler(call.queue)
    requires backend.submitError == None && backend.waitError == None
    ensures SubmitThenDrain(call, backend).outcome.Threw? <==> backend.asyncErrors != []
    ensures SubmitThenDrain(call, backend).unhandled == []
    ensures (forall i :: 0 <= i < |backend.asyncErrors| ==> Sycl.IsStdException(backend.asyncErrors[i]))
            && backend.asyncErrors != [] ==>
              SubmitThenDrain(call, backend).outcome == Threw(backend.asyncErrors[0])
  {
    HandlerThrowsIffNonEmpty(backend.asyncErrors);
    if forall i :: 0 <= i < |backend.asyncErrors| ==> Sycl.IsStdException(backend.asyncErrors[i]) {
      HandlerReportsAllStd(backend.asyncErrors);
    }
  }

  method SubmitAndWait(call: Sycl.GemmCall, backend: Sycl.Backend) returns (d: Dispatch)
    ensures d == SubmitThenDrain(call, backend)
  {
    d := Dispatch([call], [], [], Completed);
    match backend.submitError {
      case Some(e) =>
        // Both catch clauses log the exception and rethrow it.
        d := d.(outcome := Threw(e));
      case None =>
        d := d.(drained := [call.queue]);
        if backend.waitError.Some? {
          d := d.(outcome := Threw(backend.waitError.value));
        } else if HasHandler(call.queue) {
          var reported, thrown := AsyncExceptionHandler(backend.asyncErrors);
          if thrown.Some? {
            d := d.(outcome := Threw(thrown.value));
          }
        } else {
          d := d.(unhandled := backend.asyncErrors);
        }
    }
  }

  /** The single-precision gemm: nothing for a null context; otherwise one
      gemm on the context's queue with both operations translated and both
      scalars read, then a drain of that queue. */
  method SGEMM(ctxt: Context?, transa: Operation, transb: Operation,
               m: int, n: int, k: int,
               alpha: HostFloat?, A: Sycl.DevicePtr, ldA: int,
               B: Sycl.DevicePtr, ldB: int,
               beta: HostFloat?, C: Sycl.DevicePtr, ldC: int,
               backend: Sycl.Backend)
    returns (d: Dispatch)
    requires ctxt != null ==> ctxt.live && alpha != null && beta != null
    ensures ctxt == null ==> d == NoDispatch()
    ensures ctxt != null ==>
              d == SubmitThenDrain(
                     Sycl.GemmCall(ctxt.queue, ToMKLOp(transa), ToMKLOp(transb), m, n, k,
                                   alpha.bits, A, Sycl.Single, ldA, B, Sycl.Single, ldB,
                                   beta.bits, C, Sycl.Single, ldC),
                     backend)
  {
    d := NoDispatch();
    if ctxt != null {
      var call := Sycl.GemmCall(ctxt.queue, ToMKLOp(transa), ToMKLOp(transb), m, n, k,
                                alpha.bits, A, Sycl.Single, ldA, B, Sycl.Single, ldB,
                                beta.bits, C, Sycl.Single, ldC);
      d := SubmitAndWait(call, backend);
    }
  }

  // ---------------------------------------------------------------------------
  // The mixed-precision gemm
  // ---------------------------------------------------------------------------

  datatype Config = Config(aType: Datatype, bType: Datatype, cType: Datatype,
                           computeType: Datatype, alg: GemmAlgorithm)

  /** The configurations the mixed-precision gemm implements, as data. */
  function SupportedConfigs(): set<Config> {
    {Config(Real16F, Real16F, Real32F, Real32F, Default)}
  }

  /** The test the mixed-precision gemm makes before it does anything. */
  predicate IsSupported(aType: Datatype, bType: Datatype, cType: Datatype,
                        computeType: Datatype, alg: GemmAlgorithm)
  {
    aType == Real16F && bType == Real16F && cType == Real32F
    && computeType == Real32F && alg == Default
  }

  lemma IsSupportedMatchesWhitelist(aType: Datatype, bType: Datatype, cType: Datatype,
                                    computeType: Datatype, alg: GemmAlgorithm)
    ensures IsSupported(aType, bType, cType, computeType, alg)
            <==> Config(aType, bType, cType, computeType, alg) in SupportedConfigs()
  {
  }

  /** The mixed-precision gemm: for a non-null context and the one supported
      configuration, one gemm reading A and B as half and the scalars and C as
      float, then a drain; for anything else, nothing at all. */
  method GEMMEx(ctxt: Context?, transa: Operation, transb: Operation,
                m: int, n: int, k: int,
                alpha: HostFloat?, A: Sycl.DevicePtr, AType: Datatype, ldA: int,
                B: Sycl.DevicePtr, BType: Datatype, ldB: int,
                beta: HostFloat?, C: Sycl.DevicePtr, CType: Datatype, ldC: int,
                ComputeType: Datatype, alg: GemmAlgorithm,
                backend: Sycl.Backend)
    returns (d: Dispatch)
    requires ctxt != null && IsSupported(AType, BType, CType, ComputeType, alg) ==>
               ctxt.live && alpha != null && beta != null
    ensures ctxt == null || !IsSupported(AType, BType, CType, ComputeType, alg) ==> d == NoDispatch()
    ensures ctxt != null && IsSupported(AType, BType, CType, ComputeType, alg) ==>
              d == SubmitThenDrain(
                     Sycl.GemmCall(ctxt.queue, ToMKLOp(transa), ToMKLOp(transb), m, n, k,
                                   alpha.bits, A, Sycl.Half, ldA, B, Sycl.Half, ldB,
                                   beta.bits, C, Sycl.Single, ldC),
                     backend)
  {
    d := NoDispatch();
    if ctxt != null {
      if AType == Real16F && BType == Real16F && CType == Real32F
         && ComputeType == Real32F && alg == Default
      {
        var call := Sycl.GemmCall(ctxt.queue, ToMKLOp(transa), ToMKLOp(transb), m, n, k,
                                  alpha.bits, A, Sycl.Half, ldA, B, Sycl.Half, ldB,
                                  beta.bits, C, Sycl.Single, ldC);
        d := SubmitAndWait(call, backend);
      }
    }
  }
}
