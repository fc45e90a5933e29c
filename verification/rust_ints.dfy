/**
  Rust's fixed-width integers as the repository uses them. On `i16`, the
  type of the reference VMs of `project07-virtual-machine` and `project07`,
  `+`, `-` and unary `-` panic on overflow (a debug build), and `&`, `|`
  and `!` work on the two's-complement bits.
 */
module RustInts {
  import opened Wrappers
  import opened Hack

  /** A Rust `u8`. */
  type U8 = n: int | 0 <= n < 256

  /** A Rust `u16`. */
  type U16 = n: int | 0 <= n < 65536

  /** A Rust `i16`. */
  type I16 = x: int | -32768 <= x < 32768

  /** The result of `+`, `-` or unary `-` on `i16`, which panics when it does not fit. */
  function CheckedI16(x: int, what: string): (r: Result<I16, Panic>)
    ensures r.Success? <==> -32768 <= x < 32768
    ensures r.Success? ==> r.value == x
  {
    if -32768 <= x < 32768 then Success(x) else Failure(Overflow(what))
  }

  /** The bits of an `i16`, read as an unsigned word. */
  function Bits(x: I16): (w: Word)
    ensures Signed(w) == x
  {
    if x < 0 then x + Modulus else x
  }

  function AndI16(x: I16, y: I16): I16 {
    Signed(And16(Bits(x), Bits(y)))
  }

  function OrI16(x: I16, y: I16): I16 {
    Signed(Or16(Bits(x), Bits(y)))
  }

  /** `!y` on an `i16`: the complement of every bit. */
  function NotI16(y: I16): (r: I16)
    ensures r as int == -(y as int) - 1
  {
    Signed(Not16(Bits(y)))
  }

  /** Bitwise and is commutative on `i16` too. */
  lemma AndI16Comm(x: I16, y: I16)
    ensures AndI16(x, y) == AndI16(y, x)
  {
    BitAndComm(Bits(x), Bits(y));
  }
}
