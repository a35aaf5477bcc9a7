/** Vocabulary shared by every module: optional values, bytes and the widths of the
    machine integers the client and the server compute with. */
module Prelude {

  datatype Option<+T> = None | Some(value: T)

  /** A byte string: a C++ `std::string` holds bytes, not characters. */
  type Bytes = seq<bv8>

  /** Largest value of a signed 64-bit integer: the bound of every durable id. */
  const MAX_INT64: int := 0x7fff_ffff_ffff_ffff

  /** Number of values of an unsigned 64-bit integer. */
  const TWO_64: int := 0x1_0000_0000_0000_0000

  /** Subtraction of two `std::size_t` values: it wraps below zero. */
  function Minus64(a: nat, b: nat): (r: nat)
  {
    (a - b) % TWO_64
  }

  /** Addition of two `std::size_t` values. */
  function Plus64(a: nat, b: nat): (r: nat)
  {
    (a + b) % TWO_64
  }

  /** Small sums and differences do not wrap. */
  lemma NoWrap64(a: nat, b: nat)
    ensures a + b < TWO_64 ==> Plus64(a, b) == a + b
    ensures b <= a < TWO_64 ==> Minus64(a, b) == a - b
  {
  }

  lemma PlusTwice(a: nat, b: nat, c: nat)
    ensures Plus64(Plus64(a, b), c) == Plus64(a, b + c)
  {
  }

  lemma PlusMod(t: nat, k: nat)
    ensures Plus64(t % TWO_64, k) == (t + k) % TWO_64
  {
  }

  lemma MinusMod(t: nat, k: nat)
    requires k <= t
    ensures Minus64(t % TWO_64, k) == (t - k) % TWO_64
  {
  }
}
