/** Two's-complement 64-bit arithmetic, as Go's int64 does it. */
module Int64 {
  const MAX_INT64: int := 0x7fff_ffff_ffff_ffff
  const TWO_TO_THE_64: int := 0x1_0000_0000_0000_0000

  predicate Fits(x: int)
  {
    -MAX_INT64 - 1 <= x <= MAX_INT64
  }

  /** The int64 value that an exact integer result is stored as. */
  function Wrap(x: int): (w: int)
    ensures Fits(w)
    ensures Fits(x) ==> w == x
  {
    (x + MAX_INT64 + 1) % TWO_TO_THE_64 - MAX_INT64 - 1
  }

  /** Wrapping after every addition is the same as wrapping once at the end. */
  lemma WrapAbsorbs(x: int, y: int)
    ensures Wrap(Wrap(x) + y) == Wrap(x + y)
  {
    var q := (x + MAX_INT64 + 1) / TWO_TO_THE_64;
    assert Wrap(x) == x - q * TWO_TO_THE_64;
    WrapShift(x + y, -q);
  }

  lemma WrapShift(x: int, k: int)
    ensures Wrap(x + k * TWO_TO_THE_64) == Wrap(x)
  {
    var n := x + MAX_INT64 + 1;
    var q := n / TWO_TO_THE_64;
    assert n + k * TWO_TO_THE_64 == (q + k) * TWO_TO_THE_64 + n % TWO_TO_THE_64;
  }
}
