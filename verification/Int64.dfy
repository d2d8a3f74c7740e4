/** Go's signed 64-bit integers: the range and the silent wrap-around of unchecked arithmetic. */
module Int64 {

  const MAX_INT64: int := 0x7FFF_FFFF_FFFF_FFFF
  const MIN_INT64: int := -0x8000_0000_0000_0000
  const TWO_64: int := 0x1_0000_0000_0000_0000

  predicate InRange(x: int) {
    MIN_INT64 <= x <= MAX_INT64
  }

  /** The value an unchecked int64 operation stores for the mathematical result `x`. */
  function Wrap(x: int): (w: int)
    ensures InRange(w) && (x - w) % TWO_64 == 0
    ensures InRange(x) ==> w == x
  {
    (x - MIN_INT64) % TWO_64 + MIN_INT64
  }

  /** Go's `/`: truncation toward zero (Dafny's `/` is Euclidean). */
  function TruncDiv(a: int, b: int): (q: int)
    requires b != 0
  {
    var m := (if a < 0 then -a else a) / (if b < 0 then -b else b);
    if (a < 0) == (b < 0) then m else -m
  }

  /** Go's `%`: the remainder takes the sign of the dividend. */
  function TruncMod(a: int, b: int): (r: int)
    requires b != 0
  {
    var m := (if a < 0 then -a else a) % (if b < 0 then -b else b);
    if a < 0 then -m else m
  }

  /** Two in-range values that agree modulo 2^64 are equal. */
  lemma WrapUnique(x: int, w: int, k: int)
    requires InRange(w) && x - w == k * TWO_64
    ensures Wrap(x) == w
  {
    var v := Wrap(x);
    var d := (x - v) / TWO_64;
    assert x - v == d * TWO_64;
    assert v - w == (k - d) * TWO_64;
  }

  /** Wrapping an intermediate sum does not change the wrapped total. */
  lemma WrapAdd(x: int, y: int)
    ensures Wrap(Wrap(x) + y) == Wrap(x + y)
  {
    var a := (x - Wrap(x)) / TWO_64;
    var b := (Wrap(x) + y - Wrap(Wrap(x) + y)) / TWO_64;
    assert x - Wrap(x) == a * TWO_64;
    assert Wrap(x) + y - Wrap(Wrap(x) + y) == b * TWO_64;
    WrapUnique(x + y, Wrap(Wrap(x) + y), a + b);
  }
}
