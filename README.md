# hipBLAS on oneMKL: dispatch and bookkeeping model

HipBLAS-on-MKL is a shim. It presents the hipBLAS entry points (`hipblasCreate`,
`hipblasDestroy`, `hipblasSetStream`, `hipblasSgemm`, `hipblasGemmEx`) on top of
oneMKL running on a SYCL queue. The multiply itself happens inside oneMKL. What the
repository decides for itself is modelled here:

- **`GEMM` (`gemm_mkl.dfy`).** The dispatch layer.
  - An execution `Context` class holds four backend objects: a SYCL platform, device, context and queue.
  - `Create` and `Destroy` allocate and release a context.
  - `ToMKLOp` translates operations.
  - `SetStream` rebuilds the four objects from four Level Zero handles. It builds the platform first, then the device from the platform, the context from that one device, and the queue from the context.
  - `AsyncExceptionHandler` is the handler drafted inside `SetStream`.
  - `SGEMM` and `GEMMEx` each make one gemm submission and then drain the queue. `GEMMEx` acts only for the whitelisted datatype configuration.
- **`Hipblas` (`hipblas_stub.dfy`).** The facade. Every entry point except `hipblasGemmEx` checks its handle and forwards the call. `hipblasSgemm` turns a `std::exception` into ExecutionFailed; `hipblasCreate`, `hipblasDestroy` and `hipblasSetStream` catch nothing. `hipblasGemmEx` returns ExecutionFailed for any non-null handle without calling the dispatcher. The statuses are Success, HandleIsNullptr and ExecutionFailed.
- **`TestMatrix` (`matrix.dfy`).** The tests' `Matrix<T>`. It keeps a zero-filled host buffer and a zero-filled device buffer in column-major order, with whole-buffer copies between them.
- **`Layout` (`layout.dfy`).** Column-major gemm addressing, checked against `Matrix` storage. It also computes the tests' end-to-end scenario with an exact integer gemm in place of oneMKL's floating point.
- **`Sycl` (`sycl.dfy`).** The backend, which is not part of the repository:
  - Each SYCL object is a record of what it was built from. `LzDevice(platform, handle)` is one example, so the dependency chain can be stated.
  - A gemm submission is a `GemmCall` record of its arguments.
  - The backend's behaviour is an oracle value, `Backend(submitError, asyncErrors, waitError)`. It says whether the submission throws, which errors the submitted work reports asynchronously, and whether the drain (`wait_and_throw`) throws by itself.
  - `wait_and_throw` hands asynchronous errors only to the queue's asynchronous-exception handler. A queue without one passes them to the runtime's default handler. The model assumes that handler returns and drops them, so the caller never sees them (see `## Left out`).
  - A dispatcher call returns a `Dispatch` trace: the gemm calls made, the queues drained, the asynchronous errors left to the runtime's default handler, and whether it completed or threw.
- **`Wrappers` (`wrappers.dfy`).** `Option`.

Exceptions come in three kinds. `SyclException` and `StdException` both derive from
`std::exception`. `ForeignException` stands for anything else a backend might throw.
The facade's `catch(std::exception const&)` catches only the first two, so a foreign
exception passes through `hipblasSgemm` to the caller, as it would in C++.

## Model

| member | source | states |
|---|---|---|
| `GEMM.ToMKLOp` | HipBLAS-on-MKL/GemmLib/src/gemm_mkl.cpp:45-57 | N maps to transpose N, T to T, C to C, each in both directions, so the lookup is total and no two operations share a transpose |
| `GEMM.ToMKLOpRoundTrip` | HipBLAS-on-MKL/GemmLib/src/gemm_mkl.cpp:45-57 | the reverse lookup undoes `ToMKLOp` and `ToMKLOp` undoes it: translation is a bijection |
| `GEMM.ToMKLOpInjective` | HipBLAS-on-MKL/GemmLib/src/gemm_mkl.cpp:49-54 | two operations with the same transpose are the same operation |
| `GEMM.Context.constructor` | HipBLAS-on-MKL/GemmLib/src/gemm_mkl.cpp:22-29 | a new context holds the default platform, device, context and queue, and is live |
| `GEMM.Create` | HipBLAS-on-MKL/GemmLib/src/gemm_mkl.cpp:32-36 | returns a fresh, non-null, live context in the default, unbound state |
| `GEMM.Destroy` | HipBLAS-on-MKL/GemmLib/src/gemm_mkl.cpp:38-42 | a null context is left alone; a live context becomes not live; a context can only be deleted while live, that is once |
| `GEMM.SetStream` | HipBLAS-on-MKL/GemmLib/src/gemm_mkl.cpp:60-105 | a null context changes nothing; otherwise exactly four handles are required, and all four objects are replaced by the chain built from them: platform from handle 0, device from that platform and handle 1, context from the one-device list and handle 2, queue from that context and handle 3, with no async handler installed |
| `GEMM.RebuiltQueueRecordsHandles` | HipBLAS-on-MKL/GemmLib/src/gemm_mkl.cpp:67-102 | the rebuilt queue was built from the rebuilt context, which was built from the rebuilt device, which was built from the rebuilt platform; the four handles can be read back from the queue alone |
| `GEMM.RebuiltReplacesAll` | HipBLAS-on-MKL/GemmLib/src/gemm_mkl.cpp:73-103 | a rebind leaves none of the four objects in its default state, and the rebuilt queue carries no async handler |
| `GEMM.RebuiltInjective` | HipBLAS-on-MKL/GemmLib/src/gemm_mkl.cpp:67-102 | rebinds from different handles give different bindings |
| `GEMM.RebindTwice` | HipBLAS-on-MKL/GemmLib/src/gemm_mkl.cpp:60-105 | after two rebinds in a row, the context holds exactly the second binding, and its queue records the second set of handles |
| `GEMM.StdPrefix` | HipBLAS-on-MKL/GemmLib/src/gemm_mkl.cpp:82-92 | the reporting loop gets as far as the first exception that does not derive from `std::exception`: every exception before it is one, and the one there is not |
| `GEMM.AsyncExceptionHandler` | HipBLAS-on-MKL/GemmLib/src/gemm_mkl.cpp:79-99 | reports the exceptions in list order up to the first one not derived from `std::exception`, which escapes; otherwise reports all of them and rethrows the first |
| `GEMM.HandlerReportsAllStd` | HipBLAS-on-MKL/GemmLib/src/gemm_mkl.cpp:79-99 | when every exception derives from `std::exception`, all of them are reported in order and the first is rethrown; an empty list throws nothing |
| `GEMM.HandlerThrowsIffNonEmpty` | HipBLAS-on-MKL/GemmLib/src/gemm_mkl.cpp:94-98 | the handler throws if and only if the list is non-empty, and what it throws comes from the list |
| `GEMM.SubmitThenDrainOutcome` | HipBLAS-on-MKL/GemmLib/src/gemm_mkl.cpp:127-156 | exactly one gemm call; the queue is drained if and only if the submission did not throw; the call completes if and only if neither the submission nor the drain threw; otherwise it throws the submission's exception unchanged, or else the drain's |
| `GEMM.SubmitAndWait` | HipBLAS-on-MKL/GemmLib/src/gemm_mkl.cpp:127-156 | submits the call and rethrows a submission exception without draining. Otherwise it drains: the wait's own error is thrown; with a handler on the queue, what the handler throws for the asynchronous errors is thrown; without one, those errors go to the runtime's default handler |
| `GEMM.RebuiltQueueDropsAsyncErrors` | HipBLAS-on-MKL/GemmLib/src/gemm_mkl.cpp:101-156 | on a queue built by `SetStream`, which is given no handler, a gemm whose only failures are asynchronous completes, provided the runtime's default handler returns; all of those failures go to the runtime's default handler, and the outcome is the same as with none |
| `GEMM.InstalledHandlerSurfacesAsyncErrors` | HipBLAS-on-MKL/GemmLib/src/gemm_mkl.cpp:79-103 | had the drafted handler been passed to the queue, the drain would throw exactly when there are asynchronous failures, would leave none to the default handler, and would throw the first one when all derive from `std::exception` |
| `GEMM.SGEMM` | HipBLAS-on-MKL/GemmLib/src/gemm_mkl.cpp:108-158 | a null context submits nothing and drains nothing; otherwise one gemm on the context's queue, with both operations translated by `ToMKLOp`, the values `*alpha` and `*beta`, and all arguments passed through as float operands, followed by the drain |
| `GEMM.IsSupportedMatchesWhitelist` | HipBLAS-on-MKL/GemmLib/src/gemm_mkl.cpp:199-205 | the branch condition holds exactly for the configurations in the whitelist, which has one entry: (Real16F, Real16F, Real32F, Real32F, Default) |
| `GEMM.GEMMEx` | HipBLAS-on-MKL/GemmLib/src/gemm_mkl.cpp:176-248 | a null context or any configuration outside the whitelist returns normally: no call, no drain, so C is untouched and the scalars are not read. Otherwise there is one gemm reading A and B as half and the scalars and C as float, followed by the drain |
| `Hipblas.ToGEMMOp` | HipBLAS-on-MKL/src/hipblas-stub.cpp:9-21 | HIPBLAS_OP_N maps to N, HIPBLAS_OP_T to T, HIPBLAS_OP_C to C, each in both directions |
| `Hipblas.ToGEMMOpThenToMKLOp` | HipBLAS-on-MKL/src/hipblas-stub.cpp:9-21 | through both translators, each hipBLAS operation reaches the oneMKL transpose of the same name, and distinct operations stay distinct |
| `Hipblas.Create` | HipBLAS-on-MKL/src/hipblas-stub.cpp:24-32 | Success exactly when the out-parameter is non-null, and then a fresh unbound context is written through it; HandleIsNullptr exactly when it is null |
| `Hipblas.Destroy` | HipBLAS-on-MKL/src/hipblas-stub.cpp:35-45 | Success exactly when the handle is non-null, and then its context is destroyed; a null handle gives HandleIsNullptr, not Success |
| `Hipblas.SetStream` | HipBLAS-on-MKL/src/hipblas-stub.cpp:48-64 | Success exactly when the handle is non-null, and then the context is rebound to the stream's four native handles; a null handle gives HandleIsNullptr and changes nothing |
| `Hipblas.Sgemm` | HipBLAS-on-MKL/src/hipblas-stub.cpp:67-116 | a null handle gives HandleIsNullptr without calling the dispatcher. Otherwise the dispatcher gets the translated operations, and the result is Success if and only if the submission and the drain threw nothing. It is ExecutionFailed if and only if the first error they threw derives from `std::exception`; any other exception escapes unchanged. The status is a function of the dispatcher's outcome alone |
| `Hipblas.GemmEx` | HipBLAS-on-MKL/src/hipblas-stub.cpp:120-175 | a null handle gives HandleIsNullptr; any other handle gives ExecutionFailed; the dispatcher is never called, so there is no gemm and no drain |
| `Hipblas.SgemmNeverEscapes` | HipBLAS-on-MKL/src/hipblas-stub.cpp:83-115 | when the backend throws only `std::exception`s, `hipblasSgemm` always returns a status: Success exactly when neither the submission nor the wait threw and no asynchronous failure reached a handler on the queue, ExecutionFailed otherwise |
| `Hipblas.SgemmAfterSetStreamHidesAsyncErrors` | HipBLAS-on-MKL/src/hipblas-stub.cpp:48-116 | after `hipblasSetStream`, a gemm whose only failures are asynchronous returns Success, provided the runtime's default handler returns; all of those failures go to that handler |
| `TestMatrix.Index` | HipBLAS-on-MKL/test/Common/Matrix.h:57-60 | element (r, c) of an nRows by nCols matrix is stored at a position inside the buffer's nRows * nCols elements |
| `TestMatrix.IndexInjective` | HipBLAS-on-MKL/test/Common/Matrix.h:57-60 | two in-range elements share a position if and only if they are the same element |
| `TestMatrix.IndexOnto` | HipBLAS-on-MKL/test/Common/Matrix.h:8-12 | every buffer position holds the element in row `i % nRows` of column `i / nRows`, so with `IndexInjective` column-major storage is a bijection |
| `TestMatrix.Matrix.NItems` | HipBLAS-on-MKL/test/Common/Matrix.h:50 | the element count is nRows * nCols, and is not negative for non-negative dimensions |
| `TestMatrix.Matrix.Size` | HipBLAS-on-MKL/test/Common/Matrix.h:51 | the byte size is the element count times `sizeof(T)`, and is not negative for non-negative dimensions |
| `TestMatrix.Matrix.El` | HipBLAS-on-MKL/test/Common/Matrix.h:56-65 | element (r, c) is read from host storage at position `c * nRows + r`, which lies inside the host buffer |
| `TestMatrix.Matrix.constructor` | HipBLAS-on-MKL/test/Common/Matrix.h:24-34 | allocates fresh, distinct host and device buffers of `nItems() = nRows * nCols` elements, which is `size() = nItems() * sizeof(T)` bytes, and zero-fills both |
| `TestMatrix.Matrix.SetEl` | HipBLAS-on-MKL/test/Common/Matrix.h:57-60 | writing through `El(r, c)` changes exactly storage position `c * nRows + r`; every other element of the matrix keeps its value |
| `TestMatrix.Matrix.CopyHostToDevice` | HipBLAS-on-MKL/test/Common/Matrix.h:67-70 | afterwards the device buffer equals the host buffer, all `size()` bytes are copied, and the host buffer is unchanged |
| `TestMatrix.Matrix.CopyDeviceToHost` | HipBLAS-on-MKL/test/Common/Matrix.h:77-80 | afterwards the host buffer equals the device buffer, all `size()` bytes are copied, and the device buffer is unchanged |
| `TestMatrix.Matrix.Release` | HipBLAS-on-MKL/test/Common/Matrix.h:36-48 | each buffer still held is freed once, host then device, and both pointers are nulled, so a second release frees nothing |
| `Layout.LeadingDimensionIsRowCount` | HipBLAS-on-MKL/test/SparklerGemmEx/main.cpp:74-76 | with the stored matrix's row count as leading dimension, a gemm reads op(X)(i, j) from where the `Matrix` stores X(i, j), or X(j, i) when transposed |
| `Layout.LdBDepthMisaddressesB` | HipBLAS-on-MKL/test/Sgemm/main.cpp:58-60 | with `ldB = k` for B stored n by k, every element of op(B) beyond its first row is read from the wrong position unless k equals n |
| `Layout.LdBDepthCounterexample` | HipBLAS-on-MKL/test/Sgemm/main.cpp:59 | for n = 3 and k = 2, op(B)(1, 0) is read from position 2, where B(2, 0) is stored, instead of position 3; for n = 1 and k = 2 the read falls outside the 2-element buffer |
| `Layout.FilledStep` | HipBLAS-on-MKL/test/Sgemm/main.cpp:69-90 | writing one more position of a zero-filled buffer with its final value extends the written prefix by one |
| `Layout.BuildScenarioA` | HipBLAS-on-MKL/test/Sgemm/main.cpp:69-73 | a new m by k `Matrix` with 1 written to each element of column 0 holds exactly the scenario's A: 1 in the first m positions, 0 elsewhere |
| `Layout.BuildScenarioB` | HipBLAS-on-MKL/test/Sgemm/main.cpp:76-80 | a new n by k `Matrix` with 1 written to each element of column 0 holds exactly the scenario's B: 1 in the first n positions, 0 elsewhere |
| `Layout.BuildScenarioC` | HipBLAS-on-MKL/test/Sgemm/main.cpp:83-90 | a new m by n `Matrix` with r * c written to each element (r, c), column after column, holds exactly the scenario's C |
| `Layout.ScenarioDot` | HipBLAS-on-MKL/test/Sgemm/main.cpp:62-81 | in the scenario's A and B, every dot product of a row of A with a column of op(B) is 1, whatever leading dimension B is given, as long as the reads stay in the buffer |
| `Layout.SgemmScenario` | HipBLAS-on-MKL/test/Sgemm/main.cpp:62-133 | with ldA = m, ldB = n and ldC = m, every read stays in the buffers, and every element (r, c) of alpha * A * Bᵀ + beta * C is alpha + beta * r * c in exact arithmetic |
| `Layout.SgemmScenarioIgnoresLdB` | HipBLAS-on-MKL/test/Sgemm/main.cpp:117-133 | with ldB = k, whenever the reads stay in the buffer the expected values come out unchanged, so the test's check cannot reveal the wrong leading dimension |

## Findings

| source | as written | input that shows it | evidently intended | confidence | as-written member | corrected member |
|---|---|---|---|---|---|---|
| HipBLAS-on-MKL/test/Sgemm/main.cpp:59 | `ldB = k` for B, which is stored as an n by k column-major `Matrix` (leading dimension n) and passed transposed | n = 3, k = 2: op(B)(1, 0), stored at position 3, is read from position 2. n = 1, k = 2: the read is at position 2 of a 2-element buffer. With a backend that does not validate `ldB`, the comparison at main.cpp:124 cannot notice when every read stays in the buffer, because the expected values do not change; when k > n, the reads leave the buffer. A backend that checks `ldB >= max(1, n)` for a transposed B rejects k < n, so `hipblasSgemm` returns ExecutionFailed and the `CHECK` at main.cpp:97 throws | `ldB = n`, as the mixed-precision test passes at SparklerGemmEx/main.cpp:75 | not executed; high for the addressing, since the values are the same whenever the reads stay in the buffer | `Layout.LdBDepthCounterexample` | `Layout.SgemmScenario` |

## Left out

- oneMKL's numerics: the multiply itself, the half and float types, and the tests' exact float comparisons. Scalars are opaque 32-bit patterns that are passed through. `Layout` uses an exact integer gemm for the scenario. That gemm is a stand-in and not repository code.
- The SYCL and Level Zero object construction (`sycl::level_zero::make`) is modelled as total constructors that record their inputs. If a later construction step threw, the source would already have replaced the earlier fields, leaving the context partly rebound. That partial rebind is not modelled.
- Queue asynchrony is reduced to the backend oracle's three parts: the submission's error, the asynchronous errors pending when the queue is drained, and the wait's own error. When the asynchronous errors arise, and any ordering among several queues, are not modelled. The runtime's default handler is modelled only as the list of errors it receives.
- Logging to `std::cerr` and `std::cout` is left out. The exception is the async handler's reports, which are modelled as the list of exceptions it reports.
- The code guarded by `READY` (`gemm_mkl.cpp:250-284`, `hipblas-stub.cpp:144-165`) is compiled out, and it would not compile as written.
- Enum values outside the declared ones are not modelled. Given one, `unordered_map::operator[]` would insert a value-initialised entry.
- `hiplzStreamNativeInfo` is foreign. `Hipblas.StreamNativeInfo` stands in for it and copies the handle list the stream reports.
- `Hipblas.SetStream`, `GEMM.SetStream`: the `assert(nHandles == 4)` is a precondition, not a modelled abort.
- `GEMM.RebuiltQueueDropsAsyncErrors`, `Hipblas.SgemmAfterSetStreamHidesAsyncErrors`, `Hipblas.SgemmNeverEscapes`: the runtime's default asynchronous handler is assumed to return after receiving the errors, dropping them, as in runtimes before SYCL 2020. Under the SYCL 2020 specification the default handler reports the errors and calls `std::terminate`, so there a gemm with asynchronous failures on a handler-less queue ends the process and `hipblasSgemm` does not return.
- `GEMM.SGEMM`, `GEMM.GEMMEx`, `Hipblas.Sgemm`, `Hipblas.SgemmNeverEscapes`, `Hipblas.SgemmAfterSetStreamHidesAsyncErrors`: the scalar pointers must be non-null wherever they are dereferenced. The source does not check this.
- `TestMatrix.Matrix.El`: requires 0 <= r < nRows and 0 <= c < nCols. The source indexes without a check, so the model does not cover an out-of-range pair that still lands inside the buffer.
- `TestMatrix.Matrix.NItems`, `TestMatrix.Matrix.Size`: computed on unbounded integers. The source's `int` products overflow for buffers of 2^31 bytes or more.
- The `Matrix` allocation and copy failures (`CHECK` throwing), the asynchronous copies on a stream, and the plain pointer accessors `GetHostData` and `GetDeviceData` are left out. Negative dimensions are excluded by the constructor's precondition.
- `TestMatrix.Matrix.constructor`: `zero` stands for the value of `T` whose bytes are all zero, which `memset` and `hipMemset` write. The model does not tie it to a byte representation.
- Freeing memory is modelled by the context's `live` flag and by the buffers `Release` returns. Resource accounting beyond that is not modelled.
- `CommandLine.h`, `HipStream.h`, `HipblasContext.h`, `HipstarException.h` and the test drivers' I/O are not part of this model.

Behaviours of the code worth stating plainly:
- `hipblasDestroy(nullptr)` returns HandleIsNullptr, not Success.
- `GEMM::GEMMEx` returns normally for an unsupported configuration, without doing anything.
- `hipblasGemmEx` reports ExecutionFailed for every non-null handle.
- `SetStream` assigns the four objects one at a time.
- `SetStream` builds the queue without the drafted asynchronous-exception handler, so asynchronous gemm failures are not reported to the caller; they go to the runtime's default handler.
