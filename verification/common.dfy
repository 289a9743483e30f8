/**
  Small shared vocabulary: an `Option` type standing in for Rust's
  `Option`, absolute value, and single-bit access within a byte.

  Bytes are `bv8`. A bit offset `k` (0..7) addresses bit `k` counted from
  the least significant end, which is how `1 << bit_offset` addresses
  bits in a `u8`.
*/
module Common {

  datatype Option<+T> = None | Some(value: T) {

    /** Rust's `unwrap_or`. */
    function GetOr(default: T): T {
      match this
      case Some(v) => v
      case None => default
    }
  }

  /** `isize::abs`, without the overflow at `isize::MIN`. */
  function Abs(n: int): (r: nat)
    ensures r == n || r == -n
  {
    if n < 0 then -n else n
  }

  /** Bit `k` (LSB-first) of `b`, read as `(b & (1 << k)) != 0`. */
  predicate Bit(b: bv8, k: nat)
    requires k < 8
  {
    b & ((1 as bv8) << k) != 0
  }

  /** `b | (1 << k)` when `v`, else `b & !(1 << k)`: bit `k` becomes `v`. */
  function WithBit(b: bv8, k: nat, v: bool): (r: bv8)
    requires k < 8
    ensures Bit(r, k) == v
    ensures forall j :: 0 <= j < 8 && j != k ==> Bit(r, j) == Bit(b, j)
  {
    if v then b | ((1 as bv8) << k) else b & !((1 as bv8) << k)
  }

  /** A byte is determined by its eight bits. */
  lemma BitsDetermineByte(a: bv8, b: bv8)
    requires forall k :: 0 <= k < 8 ==> Bit(a, k) == Bit(b, k)
    ensures a == b
  {
    assert Bit(a, 0) == Bit(b, 0) && Bit(a, 1) == Bit(b, 1);
    assert Bit(a, 2) == Bit(b, 2) && Bit(a, 3) == Bit(b, 3);
    assert Bit(a, 4) == Bit(b, 4) && Bit(a, 5) == Bit(b, 5);
    assert Bit(a, 6) == Bit(b, 6) && Bit(a, 7) == Bit(b, 7);
  }

  /** The zero byte has no bit set. */
  lemma ZeroByteHasNoBits(k: nat)
    requires k < 8
    ensures !Bit(0, k)
  {
  }
}
