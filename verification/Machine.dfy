/** Bytes and 32-bit words. */
module Machine {
  type Byte = b: int | 0 <= b < 256 witness 0

  const TWO32: int := 0x1_0000_0000

  datatype Option<T> = None | Some(value: T)

  function Min(a: nat, b: nat): nat { if a < b then a else b }

  function Max(a: nat, b: nat): nat { if a < b then b else a }

  /** Multiplication keeps the order. */
  lemma {:induction false} MulMono(a: nat, b: nat, c: nat)
    requires a <= b
    ensures a * c <= b * c
  {
    if c > 0 {
      MulMono(a, b, c - 1);
      assert a * c == a * (c - 1) + a && b * c == b * (c - 1) + b;
    }
  }

  /** Arithmetic on uint32_t: the value modulo 2^32. */
  function W(x: int): nat { x % TWO32 }

  lemma Small(x: int)
    requires 0 <= x < TWO32
    ensures W(x) == x
  {}

  lemma Shift(x: int, q: int)
    ensures W(TWO32 * q + x) == W(x)
  {
    var p := x / TWO32;
    assert x == TWO32 * p + W(x);
    assert TWO32 * q + x == TWO32 * (q + p) + W(x);
  }

  /** Reducing a summand first makes no difference. */
  lemma WSum(a: int, b: int)
    ensures W(W(a) + b) == W(a + b)
  {
    var q := a / TWO32;
    assert a == TWO32 * q + W(a);
    assert a + b == TWO32 * q + (W(a) + b);
    Shift(W(a) + b, q);
  }
}
