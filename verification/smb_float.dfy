/** The SMB1360 fuel gauge's 16-bit floating-point format for OTP gain
    values (drivers/power/supply/smb1360.c, `float_decode` and
    `float_encode`): a 5-bit exponent in bits 15:11, a sign in bit 10 and a
    10-bit mantissa with an implicit leading one in bits 9:0.  Values are
    handled in micro-units with shifts, as the C code does. */
module SmbFloat {
  import opened Kernel

  const MICRO: nat := 1_000_000
  const MAX_MANTISSA: nat := 1023 * MICRO

  // The three fields of an encoded value.
  function ExpField(reg: u16): nat { reg / 2048 }
  function SignField(reg: u16): bool { (reg / 1024) % 2 == 1 }
  function MantField(reg: u16): nat { reg % 1024 }

  lemma FieldsCompose(reg: u16)
    ensures reg == MantField(reg) + (if SignField(reg) then 1024 else 0) + 2048 * ExpField(reg)
    ensures ExpField(reg) < 32
  {
  }

  /** `float_decode`: 1e6 * 2^(e-15) + m * 1e6 * 2^(e-25), each term
      computed with a truncating shift, negated when the sign bit is set. */
  function Decode(reg: u16): (v: int)
    ensures v != 0
    ensures v < 0 <==> SignField(reg)
    // each term is the exact power-of-two scaling, truncated toward zero
    // when the exponent makes it a division
    ensures var e := ExpField(reg); var m := MantField(reg);
      Abs(v) == (if e >= 15 then MICRO * Pow2(e - 15) else MICRO / Pow2(15 - e))
              + (if e >= 25 then m * MICRO * Pow2(e - 25) else m * MICRO / Pow2(25 - e))
  {
    var e := ExpField(reg);
    ShiftDiv(MICRO, e - 15);
    ShiftDiv(MantField(reg) * MICRO, e - 25);
    var expVal := Shift(MICRO, e - 15);
    var mantVal := Shift(MantField(reg) * MICRO, e - 25);
    ShiftPositive(e - 15);
    if SignField(reg) then -(expVal + mantVal) else expVal + mantVal
  }

  /** A shift left by `s` bits, or right by `-s` bits when `s` is
      negative. */
  function Shift(x: nat, s: int): nat
  {
    if s < 0 then ShiftRight(x, -s) else x * Pow2(s)
  }

  /** `x >> n`: n truncating halvings. */
  function ShiftRight(x: nat, n: nat): nat
  {
    if n == 0 then x else ShiftRight(x / 2, n - 1)
  }

  /** A negative shift is a truncating division. */
  lemma ShiftDiv(x: nat, s: int)
    ensures s < 0 ==> Shift(x, s) == x / Pow2(-s)
  {
    if s < 0 {
      ShiftRightDiv(x, -s);
    }
  }

  /** A shift right by n is a truncating division by 2^n. */
  lemma {:induction false} ShiftRightDiv(x: nat, n: nat)
    ensures ShiftRight(x, n) == x / Pow2(n)
  {
    if n > 0 {
      ShiftRightDiv(x / 2, n - 1);
      HalveThenDivide(x, Pow2(n - 1));
    }
  }

  /** Halving and then dividing by b is dividing by 2b. */
  lemma HalveThenDivide(x: nat, b: nat)
    requires b >= 1
    ensures x / 2 / b == x / (2 * b)
  {
    var q := x / 2 / b;
    var r := x / 2 % b + (x / 2 % b) + x % 2;
    assert x == (2 * b) * q + r;
    DivUnique(x, 2 * b, q, r);
  }

  /** The quotient is the only q with x == d * q + r and 0 <= r < d. */
  lemma DivUnique(x: int, d: int, q: int, r: int)
    requires d > 0 && 0 <= r < d && x == d * q + r
    ensures x / d == q
  {
    var q' := x / d;
    var r' := x % d;
    assert x == d * q' + r';
    if q' < q {
      MulAtLeast(d, q - q');
    } else if q' > q {
      MulAtLeast(d, q' - q);
    }
  }

  lemma MulAtLeast(d: int, k: int)
    requires d > 0 && k >= 1
    ensures d * k >= d
  {
    assert d * k == d + d * (k - 1);
  }

  /** A value of at least 2^n survives a shift right by n. */
  lemma {:induction false} ShiftRightPositive(x: nat, n: nat)
    requires x >= Pow2(n)
    ensures ShiftRight(x, n) >= 1
  {
    if n > 0 {
      ShiftRightPositive(x / 2, n - 1);
    }
  }

  /** The exponent term is never shifted to zero: 1e6 >> 15 is 30. */
  lemma ShiftPositive(s: int)
    requires s >= -15
    ensures Shift(MICRO, s) > 0
  {
    if s < 0 {
      Pow2Le(-s, 15);
      Pow2Values();
      ShiftRightPositive(MICRO, -s);
    }
  }

  lemma Pow2Values()
    ensures Pow2(10) == 1024 && Pow2(15) == 32768
  {
    assert Pow2(10) == 1024;
    assert Pow2(15) == 32768;
  }

  /** With an exponent field of 25 or more no shift truncates, and the
      decoded magnitude is exactly (1024 + m) * 1e6 * 2^(e-25). */
  lemma DecodeExact(reg: u16)
    requires ExpField(reg) >= 25
    ensures Abs(Decode(reg)) == (1024 + MantField(reg)) * MICRO * Pow2(ExpField(reg) - 25)
  {
    var k := ExpField(reg) - 25;
    Pow2Add(10, k);
    Pow2Values();
    assert Pow2(ExpField(reg) - 15) == 1024 * Pow2(k);
  }

  /** The first loop of `float_encode`: halve until the value fits in the
      mantissa, counting the exponent up. */
  function Reduce(a: nat, e: int): (r: (nat, int))
    ensures r.0 < MAX_MANTISSA && r.1 >= e
    decreases a
  {
    if a >= MAX_MANTISSA then Reduce(a / 2, e + 1) else (a, e)
  }

  /** The second loop: double a small value back up while the exponent
      allows, for precision. */
  function Grow(a: nat, e: int): (r: (nat, int))
    ensures r.1 >= -25 || r.1 == e
    ensures r.1 > -25 ==> r.0 >= MAX_MANTISSA || r.1 == e
    decreases e + 25
  {
    if a < MAX_MANTISSA && e > -25 then Grow(a * 2, e - 1) else (a, e)
  }

  /** The tail of `float_encode`: move the exponent bias, convert the
      mantissa from micro-units to units rounding up by one whole unit,
      renormalise when that rounding reaches 1024, drop the implicit one and
      pack the fields.  The exponent and mantissa are placed with C's
      two's-complement masks: `(exp << 11) & 0xF800` keeps the exponent
      modulo 32 and `mant & 0x3FF` keeps the mantissa modulo 1024. */
  function Pack(a: nat, e: int, negative: bool): (r: u16)
    ensures SignField(r) <==> negative
  {
    var e3 := e + 25;
    var f := (a + MICRO) / MICRO;
    var f2 := if f == 1024 then 2048 else f;
    var e4 := if f == 1024 then e3 - 1 else e3;
    var f3 := f2 - 1024;
    var f4 := if f3 > 0x3FF then 0x3FF else f3;
    f4 % 1024 + (if negative then 1024 else 0) + (e4 % 32) * 2048
  }

  /** `float_encode` of a signed 64-bit value (whose negation is defined). */
  function Encode(v: int): (r: u16)
    requires -0x7FFF_FFFF_FFFF_FFFF <= v <= 0x7FFF_FFFF_FFFF_FFFF
    ensures v == 0 ==> r == 0
    ensures v != 0 ==> (SignField(r) <==> v < 0)
  {
    if v == 0 then 0
    else
      var (a1, e1) := Reduce(Abs(v), 0);
      var (a2, e2) := Grow(a1, e1);
      Pack(a2, e2, v < 0)
  }

  /** Halving a multiple of a power of two that is already too large for
      the mantissa is the same as counting that power into the exponent. */
  lemma {:induction false} ReduceShift(c: nat, j: nat, e: int)
    requires c >= MAX_MANTISSA
    ensures Reduce(c * Pow2(j), e) == Reduce(c, e + j)
  {
    if j > 0 {
      var p := Pow2(j - 1);
      assert Pow2(j) == 2 * p;
      assert c * Pow2(j) == 2 * (c * p);
      assert c * p >= c by {
        assert p >= 1;
      }
      assert c * Pow2(j) >= MAX_MANTISSA;
      assert (c * Pow2(j)) / 2 == c * p;
      ReduceShift(c, j - 1, e + 1);
    }
  }

  /** The two normalisation loops on an exact (1024 + m) * 1e6 mantissa:
      the value ends as the largest halving that still reaches the
      mantissa limit. */
  lemma Normalize(m: nat, k: int)
    requires m < 1024 && k >= 0
    ensures var c := (1024 + m) * MICRO;
      var (a1, e1) := Reduce(c, k);
      Grow(a1, e1) == if m <= 1021 then (c, k) else (c / 2, k + 1)
  {
    var c := (1024 + m) * MICRO;
    assert Reduce(c, k) == Reduce(c / 2, k + 1);
    if m <= 1021 {
      assert c / 2 < MAX_MANTISSA;
      assert Reduce(c / 2, k + 1) == (c / 2, k + 1);
      assert c / 2 * 2 == c;
      assert Grow(c / 2, k + 1) == Grow(c / 2 * 2, k);
      assert Grow(c, k) == (c, k);
    } else {
      assert c / 2 >= MAX_MANTISSA && c / 4 < MAX_MANTISSA;
      assert Reduce(c / 2, k + 1) == Reduce(c / 4, k + 2);
      assert Reduce(c / 4, k + 2) == (c / 4, k + 2);
      assert c / 4 * 2 == c / 2;
      assert Grow(c / 4, k + 2) == Grow(c / 4 * 2, k + 1);
      assert Grow(c / 2, k + 1) == (c / 2, k + 1);
    }
  }

  lemma PackNormal(m: nat, k: int, negative: bool)
    requires m < 1024 && 0 <= k <= 6
    ensures var c := (1024 + m) * MICRO;
      var n := if m <= 1021 then (c, k) else (c / 2, k + 1);
      var reg := m + (if negative then 1024 else 0) + 2048 * (k + 25);
      Pack(n.0, n.1, negative) == if m == 1023 then reg else reg + 1
  {
    var c := (1024 + m) * MICRO;
    if m <= 1021 {
      assert (c + MICRO) / MICRO == 1025 + m;
    } else {
      assert (c / 2 + MICRO) / MICRO == 1024;
    }
  }

  lemma DecodeBound(reg: u16)
    requires ExpField(reg) >= 25
    ensures Pow2(ExpField(reg) - 25) <= 64
    ensures -0x7FFF_FFFF_FFFF_FFFF <= Decode(reg) <= 0x7FFF_FFFF_FFFF_FFFF
  {
    var k := ExpField(reg) - 25;
    Pow2Le(k, 6);
    assert Pow2(6) == 64;
    DecodeExact(reg);
    var c := (1024 + MantField(reg)) * MICRO;
    assert c <= 2047 * MICRO;
    MulMono(c, Pow2(k), 64);
    assert Abs(Decode(reg)) <= c * 64;
  }

  lemma MulMono(c: nat, p: nat, q: nat)
    requires p <= q
    ensures c * p <= c * q
  {
  }

  /** Encoding an exactly decoded value gives back the same exponent and
      sign, with the mantissa one unit higher unless it was already the
      largest: `float_encode` rounds up by adding a whole unit before
      dividing by 1e6. */
  lemma EncodeDecode(reg: u16)
    requires ExpField(reg) >= 25
    ensures -0x7FFF_FFFF_FFFF_FFFF <= Decode(reg) <= 0x7FFF_FFFF_FFFF_FFFF
    ensures Encode(Decode(reg)) == if MantField(reg) == 1023 then reg else reg + 1
  {
    var m := MantField(reg);
    var k := ExpField(reg) - 25;
    var c := (1024 + m) * MICRO;
    DecodeBound(reg);
    DecodeExact(reg);
    ReduceShift(c, k, 0);
    Normalize(m, k);
    FieldsCompose(reg);
    PackNormal(m, k, SignField(reg));
  }
}
