/** Values shared by the interpreter and the assembler: bytes, the byte
    conversion JavaScript applies when a number is masked with `& 0xFF` or
    stored into a `Uint8Array`, and the Option/Result wrappers that carry the
    error paths. */
module Base {

  /** One memory cell, one register value, one byte of assembled output. */
  type Byte = x: int | 0 <= x < 0x100

  /** Size of the interpreter's address space: 64 KiB. */
  const MemorySize: int := 0x1_0000

  /** The byte an integral JavaScript number becomes under `& 0xFF` or when
      written into a `Uint8Array`. Both keep the value modulo 256 with a
      non-negative remainder, which is Dafny's `%`. */
  function ToUint8(v: int): (b: Byte)
    ensures (v - b) % 0x100 == 0
    ensures 0 <= v < 0x100 ==> b == v
  {
    v % 0x100
  }

  /** Element-wise `ToUint8`: the `new Uint8Array(numbers)` conversion. */
  function ToUint8s(vs: seq<int>): (bs: seq<Byte>)
    ensures |bs| == |vs|
    ensures forall i :: 0 <= i < |vs| ==> bs[i] == ToUint8(vs[i])
  {
    seq(|vs|, i requires 0 <= i < |vs| => ToUint8(vs[i]))
  }

  lemma ToUint8sAppend(a: seq<int>, b: seq<int>)
    ensures ToUint8s(a + b) == ToUint8s(a) + ToUint8s(b)
  {
  }

  datatype Option<+T> = None | Some(value: T)

  /** Success carries the value; Failure carries what a thrown error would. */
  datatype Result<+T, +E> = Success(value: T) | Failure(error: E) {
    predicate IsFailure() {
      Failure?
    }

    function PropagateFailure<U>(): Result<U, E>
      requires Failure?
    {
      Failure(error)
    }

    function Extract(): T
      requires Success?
    {
      value
    }
  }
}
