/** Shared result types.

    Rust code in this system reports failures in two ways: by returning an
    `Err` value, and by panicking (`unwrap`, `expect`, `panic!`). The first is
    a `Result`, the second a `Run` that either finishes with a value or
    panicked. */
module Common {

  datatype Option<T> = None | Some(value: T)

  datatype Result<T, E> = Ok(value: T) | Err(error: E)

  /** The outcome of a call that may panic instead of returning. */
  datatype Run<T> = Done(value: T) | Panicked

  function Min(a: int, b: int): int
  {
    if a <= b then a else b
  }

  /** `x as u32` on a non-negative 64-bit integer keeps the low 32 bits. */
  const U32_MODULUS: int := 0x1_0000_0000

  function AsU32(x: nat): (r: nat)
    ensures r < U32_MODULUS
    ensures x < U32_MODULUS ==> r == x
  {
    x % U32_MODULUS
  }
}
