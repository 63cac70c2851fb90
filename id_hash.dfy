/**
 * The product-id hash that the satisfaction and delivery indicators of the
 * products table both compute: a fold over the id's UTF-16 code units with
 * `a = (a << 5) - a + unit` followed by `a & a`, in 32-bit signed arithmetic.
 */
module IdHash {

  const TwoTo32: int := 0x1_0000_0000
  const TwoTo31: int := 0x8000_0000

  /** ECMAScript's ToInt32: the value modulo 2^32, read as a signed 32-bit integer. */
  function ToInt32(x: int): (r: int)
    ensures -TwoTo31 <= r < TwoTo31
    ensures r % TwoTo32 == x % TwoTo32
  {
    var m := x % TwoTo32;
    if m >= TwoTo31 then m - TwoTo32 else m
  }

  /** ToInt32 depends only on the value modulo 2^32. */
  lemma ToInt32Congruent(x: int, y: int)
    requires x % TwoTo32 == y % TwoTo32
    ensures ToInt32(x) == ToInt32(y)
  {
  }

  /** Adding the same amount keeps two values congruent modulo 2^32. */
  lemma AddCongruent(x: int, y: int, z: int)
    requires x % TwoTo32 == y % TwoTo32
    ensures (x + z) % TwoTo32 == (y + z) % TwoTo32
  {
    var q := x / TwoTo32;
    var p := y / TwoTo32;
    assert x == TwoTo32 * q + x % TwoTo32;
    assert y == TwoTo32 * p + y % TwoTo32;
    assert x + z == (y + z) + TwoTo32 * (q - p);
    ShiftByMultiple(y + z, q - p);
  }

  /** Scaling by 31 keeps two values congruent modulo 2^32. */
  lemma ScaleCongruent(x: int, y: int)
    requires x % TwoTo32 == y % TwoTo32
    ensures (31 * x) % TwoTo32 == (31 * y) % TwoTo32
  {
    var q := x / TwoTo32;
    var p := y / TwoTo32;
    assert x == TwoTo32 * q + x % TwoTo32;
    assert y == TwoTo32 * p + y % TwoTo32;
    assert 31 * x == 31 * y + TwoTo32 * (31 * (q - p));
    ShiftByMultiple(31 * y, 31 * (q - p));
  }

  lemma ShiftByMultiple(x: int, k: int)
    ensures (x + TwoTo32 * k) % TwoTo32 == x % TwoTo32
  {
  }

  /** `a << 5` on a 32-bit value. */
  function ShiftLeft5(a: int): int
  {
    ToInt32(a * 32)
  }

  /** One step of the fold: `a = (a << 5) - a + unit; return a & a`. The sum is exact in doubles. */
  function Step(a: int, unit: int): (r: int)
    ensures -TwoTo31 <= r < TwoTo31
  {
    ToInt32(ShiftLeft5(a) - a + unit)
  }

  /** A step multiplies by 31, adds the unit and wraps to 32 bits. */
  lemma StepIs31(a: int, unit: int)
    ensures Step(a, unit) == ToInt32(31 * a + unit)
  {
    AddCongruent(ShiftLeft5(a), a * 32, unit - a);
    ToInt32Congruent(ShiftLeft5(a) - a + unit, 31 * a + unit);
  }

  /** The UTF-16 code units of one Unicode scalar value, as `split('')` and `charCodeAt` see them. */
  function Utf16(c: char): (units: seq<int>)
    ensures 1 <= |units| <= 2
    ensures forall i :: 0 <= i < |units| ==> 0 <= units[i] < 0x10000
    ensures |units| == 1 <==> c as int < 0x10000
    ensures |units| == 1 ==> units[0] == c as int
    ensures |units| == 2 ==>
      && 0xD800 <= units[0] < 0xDC00 && 0xDC00 <= units[1] < 0xE000
      && (units[0] - 0xD800) * 0x400 + (units[1] - 0xDC00) + 0x10000 == c as int
  {
    var n := c as int;
    if n < 0x10000 then [n]
    else [0xD800 + (n - 0x10000) / 0x400, 0xDC00 + (n - 0x10000) % 0x400]
  }

  /** The id's code units, in order. */
  function CodeUnits(s: string): (units: seq<int>)
    ensures |units| >= |s|
    ensures forall i :: 0 <= i < |units| ==> 0 <= units[i] < 0x10000
  {
    if s == [] then [] else Utf16(s[0]) + CodeUnits(s[1..])
  }

  /** The fold, from accumulator `a`. */
  function HashFrom(a: int, units: seq<int>): (h: int)
    requires -TwoTo31 <= a < TwoTo31
    ensures -TwoTo31 <= h < TwoTo31
    decreases units
  {
    if units == [] then a else HashFrom(Step(a, units[0]), units[1..])
  }

  /** The hash of a product id, starting from 0. */
  function Hash(id: string): (h: int)
    ensures -TwoTo31 <= h < TwoTo31
  {
    HashFrom(0, CodeUnits(id))
  }

  /** The same fold without any wrapping: the polynomial in 31 with the units as coefficients. */
  function Polynomial(acc: int, units: seq<int>): int
    decreases units
  {
    if units == [] then acc else Polynomial(31 * acc + units[0], units[1..])
  }

  /** Wrapping at every step gives the polynomial wrapped once at the end. */
  lemma {:induction false} HashFromIsPolynomial(acc: int, units: seq<int>)
    ensures HashFrom(ToInt32(acc), units) == ToInt32(Polynomial(acc, units))
    decreases units
  {
    if units != [] {
      var u := units[0];
      StepIs31(ToInt32(acc), u);
      ScaleCongruent(ToInt32(acc), acc);
      AddCongruent(31 * ToInt32(acc), 31 * acc, u);
      ToInt32Congruent(31 * ToInt32(acc) + u, 31 * acc + u);
      HashFromIsPolynomial(31 * acc + u, units[1..]);
    }
  }

  /** The id hash is the polynomial hash of the code units in 31, reduced to a signed 32-bit value. */
  lemma HashIsPolynomial(id: string)
    ensures Hash(id) == ToInt32(Polynomial(0, CodeUnits(id)))
  {
    HashFromIsPolynomial(0, CodeUnits(id));
  }

  /** An id of one character below U+10000 hashes to its code. */
  lemma SingleUnitHash(c: char)
    requires c as int < 0x10000
    ensures Hash([c]) == c as int
  {
    assert [c][1..] == [];
    assert CodeUnits([c]) == [c as int];
    StepIs31(0, c as int);
    assert HashFrom(0, [c as int]) == Step(0, c as int);
  }

  /** `Math.abs(hash)`, which is at most 2^31. */
  function Abs(h: int): (m: nat)
    ensures m == h || m == -h
  {
    if h < 0 then -h else h
  }
}
