/** Arithmetic in GF(2^8) and on AES columns (sections 4, 5.1.3 and 5.3.3 of FIPS 197). */
module Gf256 {

  type byte = bv8

  /** A constant factor of the column matrices. */
  type Factor = k: nat | k < 16

  /** The first row of a circulant matrix. */
  datatype Factors = Factors(k0: Factor, k1: Factor, k2: Factor, k3: Factor)

  const MIX := Factors(0x02, 0x03, 0x01, 0x01)
  const INV_MIX := Factors(0x0e, 0x0b, 0x0d, 0x09)

  /** Addition in the field. */
  function Xor(a: byte, b: byte): byte { a ^ b }

  function Sum(a: byte, b: byte, c: byte, e: byte): byte { Xor(Xor(a, b), Xor(c, e)) }

  /** The program's doubling; despite its name it multiplies by 2, not by 3. */
  function GF_p8_mul3(val: byte): byte {
    var x := val << 1;
    if val >= 0x80 then x ^ 0x1b else x
  }

  /** Doubling is multiplication by x modulo x^8 + x^4 + x^3 + x + 1. */
  lemma DoublingReducesModuloTheAesPolynomial(val: byte)
    ensures var twice := (val as bv16) << 1;
            GF_p8_mul3(val) as bv16 == if twice & 0x100 != 0 then twice ^ 0x11b else twice
  {}

  function Times4(a: byte): byte { GF_p8_mul3(GF_p8_mul3(a)) }

  function Times8(a: byte): byte { GF_p8_mul3(GF_p8_mul3(GF_p8_mul3(a))) }

  function Pick(chosen: bool, a: byte): byte { if chosen then a else 0 }

  /** The sum of those among four bytes that the bits of `k` select. */
  function Selected(k: Factor, p8: byte, p4: byte, p2: byte, p1: byte): byte {
    Sum(Pick(k >= 8, p8), Pick(k % 8 >= 4, p4), Pick(k % 4 >= 2, p2), Pick(k % 2 == 1, p1))
  }

  /** The product of section 4.2.1, a sum of repeated doublings of `a`, for factors below 16. */
  function Mul(k: Factor, a: byte): byte {
    Selected(k, Times8(a), Times4(a), GF_p8_mul3(a), a)
  }

  /** A row of a matrix over GF(2^8) times a column. */
  function Row(k: Factors, a: byte, b: byte, c: byte, e: byte): byte {
    Sum(Mul(k.k0, a), Mul(k.k1, b), Mul(k.k2, c), Mul(k.k3, e))
  }

  // Doubling, and so multiplication by a constant, is additive. The proofs hide the functions they treat as
  // unknown: exclusive-or is then only ever reasoned about where no function is applied to it.

  lemma XorCommutes(a: byte, b: byte)
    ensures Xor(a, b) == Xor(b, a)
  {}

  lemma XorAssociates(a: byte, b: byte, c: byte)
    ensures Xor(Xor(a, b), c) == Xor(a, Xor(b, c))
  {}

  lemma XorExchange(a: byte, b: byte, c: byte, e: byte)
    ensures Xor(Xor(a, b), Xor(c, e)) == Xor(Xor(a, c), Xor(b, e))
  {
    hide Xor;
    XorAssociates(a, b, Xor(c, e));
    XorAssociates(b, c, e);
    XorCommutes(b, c);
    XorAssociates(c, b, e);
    XorAssociates(a, c, Xor(b, e));
  }

  function Shifted(a: byte): byte { a << 1 }

  function Carry(a: byte): byte { if a & 0x80 != 0 then 0x1b else 0 }

  lemma DoublingIsShiftAndCarry(a: byte)
    ensures GF_p8_mul3(a) == Xor(Shifted(a), Carry(a))
  {}

  lemma ShiftedIsAdditive(a: byte, b: byte)
    ensures Shifted(Xor(a, b)) == Xor(Shifted(a), Shifted(b))
  {}

  lemma CarryIsAdditive(a: byte, b: byte)
    ensures Carry(Xor(a, b)) == Xor(Carry(a), Carry(b))
  {}

  lemma DoublingIsAdditive(a: byte, b: byte)
    ensures GF_p8_mul3(Xor(a, b)) == Xor(GF_p8_mul3(a), GF_p8_mul3(b))
  {
    hide GF_p8_mul3, Xor, Shifted, Carry;
    DoublingIsShiftAndCarry(a);
    DoublingIsShiftAndCarry(b);
    DoublingIsShiftAndCarry(Xor(a, b));
    ShiftedIsAdditive(a, b);
    CarryIsAdditive(a, b);
    XorExchange(Shifted(a), Carry(a), Shifted(b), Carry(b));
  }

  lemma PickIsAdditive(chosen: bool, a: byte, b: byte)
    ensures Pick(chosen, Xor(a, b)) == Xor(Pick(chosen, a), Pick(chosen, b))
  {}

  lemma SumIsAdditive(a: byte, b: byte, c: byte, e: byte, p: byte, q: byte, r: byte, t: byte)
    ensures Sum(Xor(a, p), Xor(b, q), Xor(c, r), Xor(e, t)) == Xor(Sum(a, b, c, e), Sum(p, q, r, t))
  {
    hide Xor;
    XorExchange(a, p, b, q);
    XorExchange(c, r, e, t);
    XorExchange(Xor(a, b), Xor(p, q), Xor(c, e), Xor(r, t));
  }

  lemma SumsTransposed(a: byte, b: byte, c: byte, e: byte, a': byte, b': byte, c': byte, e': byte,
                       a'': byte, b'': byte, c'': byte, e'': byte, p: byte, q: byte, r: byte, t: byte)
    ensures Sum(Sum(a, b, c, e), Sum(a', b', c', e'), Sum(a'', b'', c'', e''), Sum(p, q, r, t))
         == Sum(Sum(a, a', a'', p), Sum(b, b', b'', q), Sum(c, c', c'', r), Sum(e, e', e'', t))
  {
    hide Xor;
    SumIsAdditive(a, b, c, e, a', b', c', e');
    SumIsAdditive(a'', b'', c'', e'', p, q, r, t);
    SumIsAdditive(Xor(a, a'), Xor(b, b'), Xor(c, c'), Xor(e, e'),
                  Xor(a'', p), Xor(b'', q), Xor(c'', r), Xor(e'', t));
  }

  lemma SumRotatedOnce(a: byte, b: byte, c: byte, e: byte)
    ensures Sum(a, b, c, e) == Sum(b, c, e, a)
  {
    hide Xor;
    XorCommutes(Xor(a, b), Xor(c, e));
    XorExchange(c, e, a, b);
    XorExchange(b, c, e, a);
    XorCommutes(c, a);
    XorCommutes(e, b);
    XorCommutes(b, e);
    XorCommutes(Xor(b, e), Xor(c, a));
  }

  lemma SumRotated(a: byte, b: byte, c: byte, e: byte)
    ensures Sum(a, b, c, e) == Sum(e, a, b, c) == Sum(c, e, a, b) == Sum(b, c, e, a)
  {
    hide Xor, Sum;
    SumRotatedOnce(a, b, c, e);
    SumRotatedOnce(b, c, e, a);
    SumRotatedOnce(c, e, a, b);
  }

  lemma MulIsAdditive(k: Factor, a: byte, b: byte)
    ensures Mul(k, Xor(a, b)) == Xor(Mul(k, a), Mul(k, b))
  {
    hide GF_p8_mul3, Pick, Xor, Sum;
    DoublingIsAdditive(a, b);
    DoublingIsAdditive(GF_p8_mul3(a), GF_p8_mul3(b));
    DoublingIsAdditive(Times4(a), Times4(b));
    PickIsAdditive(k >= 8, Times8(a), Times8(b));
    PickIsAdditive(k % 8 >= 4, Times4(a), Times4(b));
    PickIsAdditive(k % 4 >= 2, GF_p8_mul3(a), GF_p8_mul3(b));
    PickIsAdditive(k % 2 == 1, a, b);
    SumIsAdditive(Pick(k >= 8, Times8(a)), Pick(k % 8 >= 4, Times4(a)), Pick(k % 4 >= 2, GF_p8_mul3(a)), Pick(k % 2 == 1, a),
                  Pick(k >= 8, Times8(b)), Pick(k % 8 >= 4, Times4(b)), Pick(k % 4 >= 2, GF_p8_mul3(b)), Pick(k % 2 == 1, b));
  }

  lemma MulOfSum(k: Factor, a: byte, b: byte, c: byte, e: byte)
    ensures Mul(k, Sum(a, b, c, e)) == Sum(Mul(k, a), Mul(k, b), Mul(k, c), Mul(k, e))
  {
    hide Mul, Xor;
    MulIsAdditive(k, Xor(a, b), Xor(c, e));
    MulIsAdditive(k, a, b);
    MulIsAdditive(k, c, e);
  }

  /** The coefficient, in the product of two circulant matrices, of the byte that the inner one multiplies by
      `m0`, `m1`, `m2` and `m3` in its successive rows. */
  function Coefficient(k: Factors, m0: Factor, m1: Factor, m2: Factor, m3: Factor, a: byte): byte {
    Sum(Mul(k.k0, Mul(m0, a)), Mul(k.k1, Mul(m1, a)), Mul(k.k2, Mul(m2, a)), Mul(k.k3, Mul(m3, a)))
  }

  /** A row applied to the four rotations of another row, collected by the original bytes. */
  lemma RowOfRows(k: Factors, m: Factors, a: byte, b: byte, c: byte, e: byte)
    ensures Row(k, Row(m, a, b, c, e), Row(m, b, c, e, a), Row(m, c, e, a, b), Row(m, e, a, b, c))
         == Sum(Coefficient(k, m.k0, m.k3, m.k2, m.k1, a), Coefficient(k, m.k1, m.k0, m.k3, m.k2, b),
                Coefficient(k, m.k2, m.k1, m.k0, m.k3, c), Coefficient(k, m.k3, m.k2, m.k1, m.k0, e))
  {
    hide Mul, Xor, Sum;
    MulOfSum(k.k0, Mul(m.k0, a), Mul(m.k1, b), Mul(m.k2, c), Mul(m.k3, e));
    MulOfSum(k.k1, Mul(m.k0, b), Mul(m.k1, c), Mul(m.k2, e), Mul(m.k3, a));
    MulOfSum(k.k2, Mul(m.k0, c), Mul(m.k1, e), Mul(m.k2, a), Mul(m.k3, b));
    MulOfSum(k.k3, Mul(m.k0, e), Mul(m.k1, a), Mul(m.k2, b), Mul(m.k3, c));
    SumRotated(Mul(k.k1, Mul(m.k0, b)), Mul(k.k1, Mul(m.k1, c)), Mul(k.k1, Mul(m.k2, e)), Mul(k.k1, Mul(m.k3, a)));
    SumRotated(Mul(k.k2, Mul(m.k0, c)), Mul(k.k2, Mul(m.k1, e)), Mul(k.k2, Mul(m.k2, a)), Mul(k.k2, Mul(m.k3, b)));
    SumRotated(Mul(k.k3, Mul(m.k0, e)), Mul(k.k3, Mul(m.k1, a)), Mul(k.k3, Mul(m.k2, b)), Mul(k.k3, Mul(m.k3, c)));
    SumsTransposed(Mul(k.k0, Mul(m.k0, a)), Mul(k.k0, Mul(m.k1, b)), Mul(k.k0, Mul(m.k2, c)), Mul(k.k0, Mul(m.k3, e)),
                   Mul(k.k1, Mul(m.k3, a)), Mul(k.k1, Mul(m.k0, b)), Mul(k.k1, Mul(m.k1, c)), Mul(k.k1, Mul(m.k2, e)),
                   Mul(k.k2, Mul(m.k2, a)), Mul(k.k2, Mul(m.k3, b)), Mul(k.k2, Mul(m.k0, c)), Mul(k.k2, Mul(m.k1, e)),
                   Mul(k.k3, Mul(m.k1, a)), Mul(k.k3, Mul(m.k2, b)), Mul(k.k3, Mul(m.k3, c)), Mul(k.k3, Mul(m.k0, e)));
  }

  // The coefficients of the two products.

  lemma MulOfDouble(k: Factor, a: byte)
    ensures GF_p8_mul3(Mul(k, a)) == Mul(k, GF_p8_mul3(a))
  {
    hide GF_p8_mul3, Pick, Xor;
    var p8, p4, p2, p1 := Times8(a), Times4(a), GF_p8_mul3(a), a;
    DoublingIsAdditive(Xor(Pick(k >= 8, p8), Pick(k % 8 >= 4, p4)), Xor(Pick(k % 4 >= 2, p2), Pick(k % 2 == 1, p1)));
    DoublingIsAdditive(Pick(k >= 8, p8), Pick(k % 8 >= 4, p4));
    DoublingIsAdditive(Pick(k % 4 >= 2, p2), Pick(k % 2 == 1, p1));
    DoubleOfPick(k >= 8, p8);
    DoubleOfPick(k % 8 >= 4, p4);
    DoubleOfPick(k % 4 >= 2, p2);
    DoubleOfPick(k % 2 == 1, p1);
  }

  lemma DoubleOfPick(chosen: bool, a: byte)
    ensures GF_p8_mul3(Pick(chosen, a)) == Pick(chosen, GF_p8_mul3(a))
  {}

  lemma SmallProducts(a: byte)
    ensures Mul(1, a) == a && Mul(2, a) == GF_p8_mul3(a) && Mul(3, a) == Xor(GF_p8_mul3(a), a)
  {
    hide GF_p8_mul3, Times4, Times8;
  }

  lemma SelectedBy9(p8: byte, p4: byte, p2: byte, p1: byte)
    ensures Selected(9, p8, p4, p2, p1) == p8 ^ p1
  {}

  lemma SelectedBy11(p8: byte, p4: byte, p2: byte, p1: byte)
    ensures Selected(11, p8, p4, p2, p1) == p8 ^ p2 ^ p1
  {}

  lemma SelectedBy13(p8: byte, p4: byte, p2: byte, p1: byte)
    ensures Selected(13, p8, p4, p2, p1) == p8 ^ p4 ^ p1
  {}

  lemma SelectedBy14(p8: byte, p4: byte, p2: byte, p1: byte)
    ensures Selected(14, p8, p4, p2, p1) == p8 ^ p4 ^ p2
  {}

  /** The products that InvMixColumnsImpl composes from doublings and sums. */
  lemma ComposedProducts(a: byte)
    ensures var a2 := GF_p8_mul3(a); var a2_2 := GF_p8_mul3(a2); var a2a1_2 := GF_p8_mul3(Xor(a2, a));
            && Xor(GF_p8_mul3(a2_2), a) == Mul(9, a)
            && Xor(GF_p8_mul3(Xor(a2_2, a)), a) == Mul(11, a)
            && Xor(GF_p8_mul3(a2a1_2), a) == Mul(13, a)
            && GF_p8_mul3(Xor(a2a1_2, a)) == Mul(14, a)
  {
    hide GF_p8_mul3, Xor, Selected;
    var p2 := GF_p8_mul3(a);
    var p4 := GF_p8_mul3(p2);
    var p8 := GF_p8_mul3(p4);
    Selected9InXors(p8, p4, p2, a);
    Selected11InXors(p8, p4, p2, a);
    Selected13InXors(p8, p4, p2, a);
    Selected14InXors(p8, p4, p2, a);
    DoublingIsAdditive(p4, a);
    DoublingIsAdditive(p2, a);
    DoublingIsAdditive(p4, p2);
    DoublingIsAdditive(Xor(p4, p2), a);
  }

  lemma Selected9InXors(p8: byte, p4: byte, p2: byte, p1: byte)
    ensures Selected(9, p8, p4, p2, p1) == Xor(p8, p1)
  {
    hide Selected;
    SelectedBy9(p8, p4, p2, p1);
  }

  lemma Selected11InXors(p8: byte, p4: byte, p2: byte, p1: byte)
    ensures Selected(11, p8, p4, p2, p1) == Xor(Xor(p8, p2), p1)
  {
    hide Selected;
    SelectedBy11(p8, p4, p2, p1);
  }

  lemma Selected13InXors(p8: byte, p4: byte, p2: byte, p1: byte)
    ensures Selected(13, p8, p4, p2, p1) == Xor(Xor(p8, p4), p1)
  {
    hide Selected;
    SelectedBy13(p8, p4, p2, p1);
  }

  lemma Selected14InXors(p8: byte, p4: byte, p2: byte, p1: byte)
    ensures Selected(14, p8, p4, p2, p1) == Xor(Xor(p8, p4), p2)
  {
    hide Selected;
    SelectedBy14(p8, p4, p2, p1);
  }

  /** The small multiples of a byte, multiplied by `k`: they select among five successive doublings. */
  lemma MultiplesOfMultiples(k: Factor, p16: byte, p8: byte, p4: byte, p2: byte, p1: byte)
    requires p2 == GF_p8_mul3(p1) && p4 == GF_p8_mul3(p2) && p8 == GF_p8_mul3(p4) && p16 == GF_p8_mul3(p8)
    ensures Mul(k, Mul(1, p1)) == Selected(k, p8, p4, p2, p1)
    ensures Mul(k, Mul(2, p1)) == Selected(k, p16, p8, p4, p2)
    ensures Mul(k, Mul(3, p1)) == Xor(Selected(k, p16, p8, p4, p2), Selected(k, p8, p4, p2, p1))
    ensures Mul(1, Mul(k, p1)) == Mul(k, Mul(1, p1))
    ensures Mul(2, Mul(k, p1)) == Mul(k, Mul(2, p1))
    ensures Mul(3, Mul(k, p1)) == Mul(k, Mul(3, p1))
  {
    hide GF_p8_mul3, Selected, Xor;
    SmallProducts(p1);
    SmallProducts(Mul(k, p1));
    MulOfDouble(k, p1);
    MulIsAdditive(k, p2, p1);
  }

  // Each of the four coefficients, and its value from five named doublings.

  /** The multiples that InvMixColumns takes of the bytes that MixColumns makes, as sums of doublings. */
  lemma Multiples(p16: byte, p8: byte, p4: byte, p2: byte, p1: byte)
    requires p2 == GF_p8_mul3(p1) && p4 == GF_p8_mul3(p2) && p8 == GF_p8_mul3(p4) && p16 == GF_p8_mul3(p8)
    ensures Mul(14, Mul(1, p1)) == p8 ^ p4 ^ p2 && Mul(14, Mul(2, p1)) == p16 ^ p8 ^ p4
    ensures Mul(14, Mul(3, p1)) == Xor(p16 ^ p8 ^ p4, p8 ^ p4 ^ p2)
    ensures forall i | 1 <= i <= 3 :: Mul(i, Mul(14, p1)) == Mul(14, Mul(i, p1))
    ensures Mul(11, Mul(1, p1)) == p8 ^ p2 ^ p1 && Mul(11, Mul(2, p1)) == p16 ^ p4 ^ p2
    ensures Mul(11, Mul(3, p1)) == Xor(p16 ^ p4 ^ p2, p8 ^ p2 ^ p1)
    ensures forall i | 1 <= i <= 3 :: Mul(i, Mul(11, p1)) == Mul(11, Mul(i, p1))
    ensures Mul(13, Mul(1, p1)) == p8 ^ p4 ^ p1 && Mul(13, Mul(2, p1)) == p16 ^ p8 ^ p2
    ensures Mul(13, Mul(3, p1)) == Xor(p16 ^ p8 ^ p2, p8 ^ p4 ^ p1)
    ensures forall i | 1 <= i <= 3 :: Mul(i, Mul(13, p1)) == Mul(13, Mul(i, p1))
    ensures Mul(9, Mul(1, p1)) == p8 ^ p1 && Mul(9, Mul(2, p1)) == p16 ^ p2
    ensures Mul(9, Mul(3, p1)) == Xor(p16 ^ p2, p8 ^ p1)
    ensures forall i | 1 <= i <= 3 :: Mul(i, Mul(9, p1)) == Mul(9, Mul(i, p1))
  {
    hide Mul, Selected, Xor, GF_p8_mul3;
    MultiplesOfMultiples(14, p16, p8, p4, p2, p1);
    SelectedBy14(p8, p4, p2, p1);
    SelectedBy14(p16, p8, p4, p2);
    MultiplesOfMultiples(11, p16, p8, p4, p2, p1);
    SelectedBy11(p8, p4, p2, p1);
    SelectedBy11(p16, p8, p4, p2);
    MultiplesOfMultiples(13, p16, p8, p4, p2, p1);
    SelectedBy13(p8, p4, p2, p1);
    SelectedBy13(p16, p8, p4, p2);
    MultiplesOfMultiples(9, p16, p8, p4, p2, p1);
    SelectedBy9(p8, p4, p2, p1);
    SelectedBy9(p16, p8, p4, p2);
  }

  lemma SumReordered(a: byte, b: byte, c: byte, e: byte)
    ensures Sum(a, b, c, e) == Sum(a, e, c, b) == Sum(b, a, e, c) == Sum(c, b, a, e) == Sum(e, c, b, a)
  {
    hide Xor;
    XorExchange(a, b, c, e);
    XorCommutes(b, e);
    XorExchange(a, c, e, b);
    XorCommutes(a, b);
    XorCommutes(c, e);
    XorCommutes(a, c);
    XorExchange(c, a, b, e);
    XorCommutes(Xor(a, b), Xor(c, e));
  }

  /** A byte comes back to its own place once. */
  lemma DiagonalCoefficient(a: byte)
    ensures Coefficient(INV_MIX, 2, 1, 1, 3, a) == a
    ensures Coefficient(MIX, 14, 9, 13, 11, a) == a
  {
    hide Mul, Selected, Sum, Xor, GF_p8_mul3;
    var p2 := GF_p8_mul3(a);
    var p4 := GF_p8_mul3(p2);
    var p8 := GF_p8_mul3(p4);
    var p16 := GF_p8_mul3(p8);
    Multiples(p16, p8, p4, p2, a);
    DiagonalCoefficientSum(p16, p8, p4, p2, a);
    SumReordered(Mul(14, Mul(2, a)), Mul(11, Mul(1, a)), Mul(13, Mul(1, a)), Mul(9, Mul(3, a)));
  }

  lemma DiagonalCoefficientSum(p16: byte, p8: byte, p4: byte, p2: byte, p1: byte)
    ensures Sum(p16 ^ p8 ^ p4, p8 ^ p2 ^ p1, p8 ^ p4 ^ p1, Xor(p16 ^ p2, p8 ^ p1)) == p1
  {}

  /** And cancels in the other places. */
  lemma SecondCoefficient(a: byte)
    ensures Coefficient(INV_MIX, 3, 2, 1, 1, a) == 0
    ensures Coefficient(MIX, 11, 14, 9, 13, a) == 0
  {
    hide Mul, Selected, Sum, Xor, GF_p8_mul3;
    var p2 := GF_p8_mul3(a);
    var p4 := GF_p8_mul3(p2);
    var p8 := GF_p8_mul3(p4);
    var p16 := GF_p8_mul3(p8);
    Multiples(p16, p8, p4, p2, a);
    SecondCoefficientSum(p16, p8, p4, p2, a);
    SumReordered(Mul(14, Mul(3, a)), Mul(11, Mul(2, a)), Mul(13, Mul(1, a)), Mul(9, Mul(1, a)));
  }

  lemma SecondCoefficientSum(p16: byte, p8: byte, p4: byte, p2: byte, p1: byte)
    ensures Sum(Xor(p16 ^ p8 ^ p4, p8 ^ p4 ^ p2), p16 ^ p4 ^ p2, p8 ^ p4 ^ p1, p8 ^ p1) == 0
  {}

  /** And cancels in the other places. */
  lemma ThirdCoefficient(a: byte)
    ensures Coefficient(INV_MIX, 1, 3, 2, 1, a) == 0
    ensures Coefficient(MIX, 13, 11, 14, 9, a) == 0
  {
    hide Mul, Selected, Sum, Xor, GF_p8_mul3;
    var p2 := GF_p8_mul3(a);
    var p4 := GF_p8_mul3(p2);
    var p8 := GF_p8_mul3(p4);
    var p16 := GF_p8_mul3(p8);
    Multiples(p16, p8, p4, p2, a);
    ThirdCoefficientSum(p16, p8, p4, p2, a);
    SumReordered(Mul(14, Mul(1, a)), Mul(11, Mul(3, a)), Mul(13, Mul(2, a)), Mul(9, Mul(1, a)));
  }

  lemma ThirdCoefficientSum(p16: byte, p8: byte, p4: byte, p2: byte, p1: byte)
    ensures Sum(p8 ^ p4 ^ p2, Xor(p16 ^ p4 ^ p2, p8 ^ p2 ^ p1), p16 ^ p8 ^ p2, p8 ^ p1) == 0
  {}

  /** And cancels in the other places. */
  lemma FourthCoefficient(a: byte)
    ensures Coefficient(INV_MIX, 1, 1, 3, 2, a) == 0
    ensures Coefficient(MIX, 9, 13, 11, 14, a) == 0
  {
    hide Mul, Selected, Sum, Xor, GF_p8_mul3;
    var p2 := GF_p8_mul3(a);
    var p4 := GF_p8_mul3(p2);
    var p8 := GF_p8_mul3(p4);
    var p16 := GF_p8_mul3(p8);
    Multiples(p16, p8, p4, p2, a);
    FourthCoefficientSum(p16, p8, p4, p2, a);
    SumReordered(Mul(14, Mul(1, a)), Mul(11, Mul(1, a)), Mul(13, Mul(3, a)), Mul(9, Mul(2, a)));
  }

  lemma FourthCoefficientSum(p16: byte, p8: byte, p4: byte, p2: byte, p1: byte)
    ensures Sum(p8 ^ p4 ^ p2, p8 ^ p2 ^ p1, Xor(p16 ^ p8 ^ p2, p8 ^ p4 ^ p1), p16 ^ p2) == 0
  {}

  lemma SumWithZeros(a: byte)
    ensures Sum(a, 0, 0, 0) == a
  {}

  /** Unmixing a mixed column, and mixing an unmixed one, gives back its first byte. */
  lemma ColumnsInvert(a: byte, b: byte, c: byte, e: byte)
    ensures Row(INV_MIX, Row(MIX, a, b, c, e), Row(MIX, b, c, e, a), Row(MIX, c, e, a, b), Row(MIX, e, a, b, c)) == a
    ensures Row(MIX, Row(INV_MIX, a, b, c, e), Row(INV_MIX, b, c, e, a),
                Row(INV_MIX, c, e, a, b), Row(INV_MIX, e, a, b, c)) == a
  {
    hide Mul, Sum, Coefficient, Row;
    RowOfRows(INV_MIX, MIX, a, b, c, e);
    RowOfRows(MIX, INV_MIX, a, b, c, e);
    DiagonalCoefficient(a);
    SecondCoefficient(b);
    ThirdCoefficient(c);
    FourthCoefficient(e);
    SumWithZeros(a);
  }
}
