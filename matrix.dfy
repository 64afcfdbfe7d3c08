/** The tests' host/device matrix: `nRows * nCols` elements stored in
    column-major order, once in host memory and once in device memory. */
module TestMatrix {

  /** Where element (r, c) of an `nRows` by `nCols` matrix is stored: column
      after column, so the leading dimension is `nRows`. */
  function Index(nRows: int, nCols: int, r: int, c: int): (i: int)
    requires 0 <= r < nRows && 0 <= c < nCols
    ensures 0 <= i < nRows * nCols
  {
    assert c * nRows + r < (c + 1) * nRows <= nCols * nRows by {
      assert (c + 1) * nRows == c * nRows + nRows;
      MulMonotone(c + 1, nCols, nRows);
    }
    c * nRows + r
  }

  lemma MulMonotone(a: int, b: int, x: nat)
    requires a <= b
    ensures a * x <= b * x
  {
    assert b * x - a * x == (b - a) * x;
  }

  /** Distinct elements are stored at distinct positions. */
  lemma IndexInjective(nRows: int, nCols: int, r1: int, c1: int, r2: int, c2: int)
    requires 0 <= r1 < nRows && 0 <= c1 < nCols
    requires 0 <= r2 < nRows && 0 <= c2 < nCols
    ensures Index(nRows, nCols, r1, c1) == Index(nRows, nCols, r2, c2) <==> r1 == r2 && c1 == c2
  {
    if c1 < c2 {
      MulMonotone(c1 + 1, c2, nRows);
      assert (c1 + 1) * nRows == c1 * nRows + nRows;
    } else if c2 < c1 {
      MulMonotone(c2 + 1, c1, nRows);
      assert (c2 + 1) * nRows == c2 * nRows + nRows;
    }
  }

  /** Every position of the buffer holds some element: the one in row
      `i % nRows` of column `i / nRows`. */
  lemma IndexOnto(nRows: int, nCols: int, i: int)
    requires 0 <= nRows && 0 <= nCols && 0 <= i < nRows * nCols
    ensures 0 < nRows
    ensures 0 <= i % nRows < nRows && 0 <= i / nRows < nCols
    ensures Index(nRows, nCols, i % nRows, i / nRows) == i
  {
    var q, r := i / nRows, i % nRows;
    assert q * nRows + r == i;
    if q >= nCols {
      MulMonotone(nCols, q, nRows);
      assert false;
    }
  }

  class Matrix<T> {
    const nRows: int
    const nCols: int
    /** `sizeof(T)`, in bytes. */
    const elemSize: nat
    var hostData: array?<T>
    var devData: array?<T>

    ghost predicate Valid()
      reads this
    {
      0 <= nRows && 0 <= nCols && 0 < elemSize
      && (hostData != null ==> hostData.Length == NItems())
      && (devData != null ==> devData.Length == NItems())
      && (hostData != null && devData != null ==> hostData != devData)
    }

    /** Both buffers are still held. */
    predicate Allocated()
      reads this
    {
      hostData != null && devData != null
    }

    /** The number of elements of the matrix. */
    function NItems(): (n: int)
      ensures n == nRows * nCols
      ensures 0 <= nRows && 0 <= nCols ==> 0 <= n
    {
      nRows * nCols
    }

    /** The size of either buffer, in bytes. */
    function Size(): (s: int)
      ensures s == NItems() * elemSize
      ensures 0 <= nRows && 0 <= nCols ==> 0 <= s
    {
      if 0 <= NItems() then MulMonotone(0, NItems(), elemSize); NItems() * elemSize
      else NItems() * elemSize
    }

    /** Allocates both buffers and fills them with the zero-byte value `zero`. */
    constructor (nRows: int, nCols: int, zero: T, elemSize: nat)
      requires 0 <= nRows && 0 <= nCols && 0 < elemSize
      ensures Valid() && Allocated() && fresh(hostData) && fresh(devData)
      ensures this.nRows == nRows && this.nCols == nCols && this.elemSize == elemSize
      ensures hostData.Length == NItems() && Size() == hostData.Length * elemSize
      ensures hostData[..] == seq(nRows * nCols, _ => zero)
      ensures devData[..] == seq(nRows * nCols, _ => zero)
    {
      this.nRows := nRows;
      this.nCols := nCols;
      this.elemSize := elemSize;
      new;
      hostData := new T[nRows * nCols](_ => zero);
      devData := new T[nRows * nCols](_ => zero);
    }

    /** Element (r, c), read from host storage. */
    function El(r: int, c: int): (v: T)
      requires Valid() && hostData != null
      requires 0 <= r < nRows && 0 <= c < nCols
      reads this, hostData
      ensures c * nRows + r < hostData.Length && v == hostData[c * nRows + r]
    {
      var i := Index(nRows, nCols, r, c);
      assert i == c * nRows + r;
      hostData[i]
    }

    /** Writes `v` through the reference to element (r, c): exactly that
        element changes. */
    method SetEl(r: int, c: int, v: T)
      requires Valid() && hostData != null
      requires 0 <= r < nRows && 0 <= c < nCols
      modifies hostData
      ensures hostData[..] == old(hostData[..])[Index(nRows, nCols, r, c) := v]
      ensures forall r2, c2 :: 0 <= r2 < nRows && 0 <= c2 < nCols ==>
                El(r2, c2) == if r2 == r && c2 == c then v else old(El(r2, c2))
    {
      hostData[Index(nRows, nCols, r, c)] := v;
      forall r2, c2 | 0 <= r2 < nRows && 0 <= c2 < nCols
        ensures (r2 == r && c2 == c) <==> Index(nRows, nCols, r2, c2) == Index(nRows, nCols, r, c)
      {
        IndexInjective(nRows, nCols, r, c, r2, c2);
      }
    }

    /** Copies all `Size()` bytes of host storage to device storage. */
    method CopyHostToDevice()
      requires Valid() && Allocated()
      modifies devData
      ensures devData[..] == hostData[..] && hostData[..] == old(hostData[..])
      ensures devData.Length * elemSize == Size()
    {
      forall i | 0 <= i < devData.Length {
        devData[i] := hostData[i];
      }
    }

    /** Copies all `Size()` bytes of device storage to host storage. */
    method CopyDeviceToHost()
      requires Valid() && Allocated()
      modifies hostData
      ensures hostData[..] == devData[..] && devData[..] == old(devData[..])
      ensures hostData.Length * elemSize == Size()
    {
      forall i | 0 <= i < hostData.Length {
        hostData[i] := devData[i];
      }
    }

    /** The destructor: frees each buffer still held, once, and forgets it. */
    method Release() returns (freed: seq<array<T>>)
      requires Valid()
      modifies this
      ensures Valid() && !Allocated() && hostData == null && devData == null
      ensures freed == (if old(hostData) != null then [old(hostData)] else [])
                       + (if old(devData) != null then [old(devData)] else [])
    {
      freed := [];
      if hostData != null {
        freed := freed + [hostData];
        hostData := null;
      }
      if devData != null {
        freed := freed + [devData];
        devData := null;
      }
    }
  }
}
