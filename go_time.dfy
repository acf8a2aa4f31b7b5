/**
 * Go's 64-bit integers and `time.Duration` (a signed count of nanoseconds),
 * with the two's-complement wrap-around of Go's `+`, `-` and `*`, and the
 * behaviour of `time.After` on a duration that is not positive.
 */
module GoTime {

  const Modulus: int := 0x1_0000_0000_0000_0000

  /**
   * Go's `int64`, the type of `time.Duration`. The model takes Go's `int`,
   * the type of a lease duration, to be 64 bits wide as well.
   */
  newtype int64 = x: int | -0x8000_0000_0000_0000 <= x < 0x8000_0000_0000_0000

  /** `time.Second`: one second in nanoseconds. */
  const Second: int64 := 1_000_000_000

  /** Two's-complement wrap-around of an exact result into `int64`. */
  function Wrap64(x: int): (r: int64)
    ensures (r as int - x) % Modulus == 0
    ensures -0x8000_0000_0000_0000 <= x < 0x8000_0000_0000_0000 ==> r as int == x
  {
    (((x + 0x8000_0000_0000_0000) % Modulus) - 0x8000_0000_0000_0000) as int64
  }

  /** Scaling keeps two integers congruent modulo 2^64. */
  lemma ScaleCongruent(x: int, y: int, k: int)
    requires (x - y) % Modulus == 0
    ensures (x * k - y * k) % Modulus == 0
  {
    var q := (x - y) / Modulus;
    assert x - y == Modulus * q;
    assert x * k - y * k == Modulus * (q * k);
  }

  /** Congruence modulo 2^64 is transitive. */
  lemma CongruentTrans(x: int, y: int, z: int)
    requires (x - y) % Modulus == 0 && (y - z) % Modulus == 0
    ensures (x - z) % Modulus == 0
  {
    var p := (x - y) / Modulus;
    var q := (y - z) / Modulus;
    assert x - z == Modulus * (p + q);
  }

  /**
   * The least time `<-time.After(d)` blocks, in nanoseconds: a duration that
   * is zero or negative fires at once; otherwise the timer fires no earlier
   * than `d`.
   */
  function AfterDelay(d: int64): (n: nat)
    ensures n == 0 <==> d <= 0
    ensures n > 0 ==> n == d as int
  {
    if d <= 0 then 0 else d as int
  }
}
