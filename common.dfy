/**
 * Shared vocabulary: optional values and results, bytes, and the
 * fixed-width unsigned integers of the firmware.
 *
 * Rust's integer arithmetic on `u32` either panics (debug builds) or wraps
 * (release builds, which is what ships on the device). The model writes the
 * wrap-around out with `Wrap32` wherever an operation of the source can leave
 * the range of its type.
 */
module Common {

  datatype Option<T> = None | Some(value: T) {
    /** Rust's `Option::unwrap_or`. */
    function UnwrapOr(default: T): T {
      if Some? then value else default
    }
  }

  datatype Result<T, E> = Ok(value: T) | Err(error: E)

  /** `u8` */
  newtype byte = b: int | 0 <= b < 256

  const U32_LIMIT: int := 0x1_0000_0000
  const U32_MAX: int := U32_LIMIT - 1

  /** `u32` */
  type u32 = x: int | 0 <= x < U32_LIMIT

  /** The value a wrapping `u32` operation leaves, for a mathematical result `x`. */
  function Wrap32(x: int): (r: u32)
    ensures 0 <= x < U32_LIMIT ==> r == x
    ensures (r - x) % U32_LIMIT == 0
  {
    x % U32_LIMIT
  }

  lemma ModShift32(z: int, q: int)
    ensures (q * U32_LIMIT + z) % U32_LIMIT == z % U32_LIMIT
  {
  }

  /** Wrapping an intermediate result does not change the final wrapped value. */
  lemma Wrap32OfSum(a: int, b: int)
    ensures Wrap32(Wrap32(a) + b) == Wrap32(a + b)
  {
    ModShift32(a % U32_LIMIT + b, a / U32_LIMIT);
    assert a + b == (a / U32_LIMIT) * U32_LIMIT + (a % U32_LIMIT + b);
  }

  function Min(a: int, b: int): int {
    if a <= b then a else b
  }

  function Pow2(n: nat): (r: nat)
    ensures r >= 1
  {
    if n == 0 then 1 else 2 * Pow2(n - 1)
  }

  /** Powers of two grow with the exponent. */
  lemma {:induction false} Pow2Monotone(m: nat, n: nat)
    requires m <= n
    ensures Pow2(m) <= Pow2(n)
    decreases n
  {
    if m < n {
      Pow2Monotone(m, n - 1);
    }
  }

  /**
   * Which step of a routine an injected fault hits, if any: step `i` is
   * healthy unless `fault == Some(i)`.
   */
  function Healthy(fault: Option<nat>, i: nat): bool {
    fault != Some(i)
  }

  /** A sequence of `n` zero bytes, the content of a fresh `[0u8; n]`. */
  function Zeros(n: nat): (z: seq<byte>)
    ensures |z| == n && forall i :: 0 <= i < n ==> z[i] == 0
  {
    seq(n, _ => 0)
  }

  /** Concatenation regroups: the step that lets a fold over appended pieces be read either way. */
  lemma AppendAssoc<T>(a: seq<T>, b: seq<T>, c: seq<T>)
    ensures a + b + c == a + (b + c)
  {
  }
}
