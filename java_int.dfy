/** Java's 32-bit `int`, with the wrap-around of its `+` and `-`. */
module JavaInt {

  const MinInt32: int := -0x8000_0000
  const MaxInt32: int := 0x7fff_ffff
  const Modulus: int := 0x1_0000_0000

  type Int32 = x: int | MinInt32 <= x <= MaxInt32

  /** The value Java stores when an exact result `x` is written to an `int`. */
  function Wrap32(x: int): (r: Int32)
    ensures MinInt32 <= x <= MaxInt32 ==> r == x
    ensures (x - r) % Modulus == 0
  {
    (x - MinInt32) % Modulus + MinInt32
  }

  /** Wrapping after every step of a running sum is the same as wrapping once at the end. */
  lemma WrapAdd(a: int, b: int)
    ensures Wrap32(Wrap32(a) + b) == Wrap32(a + b)
  {
    var w := Wrap32(a);
    var q := (a - w) / Modulus;
    assert a == w + q * Modulus;
    assert a + b - MinInt32 == (w + b - MinInt32) + q * Modulus;
    ModShift(w + b - MinInt32, q);
  }

  lemma ModShift(x: int, q: int)
    ensures (x + q * Modulus) % Modulus == x % Modulus
  {
    var r := x % Modulus;
    var d := x / Modulus;
    assert x + q * Modulus == (d + q) * Modulus + r;
  }
}
