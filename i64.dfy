/** Two's-complement 64-bit signed integers, as Rust's `i64` / `AtomicI64`.
    `fetch_add` on an `AtomicI64` wraps around on overflow; `Wrap` states
    that wrap-around as "the unique i64 congruent to x modulo 2^64". */
module I64 {

  const Min: int := -0x8000_0000_0000_0000
  const Max: int := 0x7fff_ffff_ffff_ffff
  const Modulus: int := 0x1_0000_0000_0000_0000

  newtype i64 = x: int | -0x8000_0000_0000_0000 <= x <= 0x7fff_ffff_ffff_ffff

  /** a and b denote the same 64-bit pattern */
  predicate Congruent(a: int, b: int) {
    (a - b) % Modulus == 0
  }

  /** The i64 whose bit pattern is the low 64 bits of x. */
  function Wrap(x: int): (r: i64)
    ensures Congruent(r as int, x)
    ensures Min <= x <= Max ==> r as int == x
  {
    var low := (x - Min) % Modulus;
    (low + Min) as i64
  }

  /** Wrapping addition, as `fetch_add` stores it. */
  function WrappingAdd(a: i64, d: int): (r: i64)
    ensures Congruent(r as int, a as int + d)
    ensures Min <= a as int + d <= Max ==> r as int == a as int + d
  {
    Wrap(a as int + d)
  }

  /** Wrap picks the only i64 congruent to its argument. */
  lemma WrapUnique(x: int, y: i64)
    requires Congruent(y as int, x)
    ensures y == Wrap(x)
  {
  }

  /** Wrapping twice is wrapping once: adding to a wrapped value
      is the same as adding before wrapping. */
  lemma WrapAdd(x: int, d: int)
    ensures Wrap(Wrap(x) as int + d) == Wrap(x + d)
  {
  }
}
