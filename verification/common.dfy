/** Shared vocabulary: fixed-width integer ranges of the Rust program,
    bytes, and the Option/Result wrappers used for error paths. */
module Common {

  /** One octet of a byte stream. */
  type byte = x: int | 0 <= x < 0x100

  /** Rust's `u8`, `u32`, `i32` and `u64`, as ranges of unbounded integers. */
  type u8 = x: int | 0 <= x < 0x100
  type u32 = x: int | 0 <= x < 0x1_0000_0000
  type i32 = x: int | -0x8000_0000 <= x < 0x8000_0000
  type u64 = x: int | 0 <= x < 0x1_0000_0000_0000_0000

  const U32_MAX: int := 0xFFFF_FFFF
  const I32_MIN: int := -0x8000_0000
  const I32_MAX: int := 0x7FFF_FFFF

  type bytes = seq<byte>

  /** An optional value; `None` stands for a failed lookup or a missing item. */
  datatype Option<+T> = None | Some(value: T) {
    function GetOr(default: T): T {
      match this
      case Some(v) => v
      case None => default
    }
  }

  /** A computation that either produced a value or failed with an error. */
  datatype Result<+T, +E> = Ok(value: T) | Err(error: E) {
    predicate IsFailure() {
      Err?
    }

    function PropagateFailure<U>(): Result<U, E>
      requires Err?
    {
      Err(error)
    }

    function Extract(): T
      requires Ok?
    {
      value
    }
  }

  /** Two's-complement reinterpretation of the low 32 bits of `n`
      (Rust's `as i32` on an unsigned 32-bit value). */
  function ReinterpretI32(n: u32): (r: i32)
    ensures (r + 0x1_0000_0000) % 0x1_0000_0000 == n
    ensures 0 <= r <==> n < 0x8000_0000
  {
    if n < 0x8000_0000 then n else n - 0x1_0000_0000
  }

  /** The unsigned 32-bit pattern of an `i32` (Rust's `as u32`). */
  function ReinterpretU32(i: i32): (r: u32)
    ensures ReinterpretI32(r) == i
  {
    if i < 0 then i + 0x1_0000_0000 else i
  }
}
