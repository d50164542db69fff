/** Zeeman splitting of hyperfine atomic levels.

    The Landé g-factors g_J and g_F, the weak-field Zeeman energy shift
    ΔE = μ_B·g_F·B·m_F and the corresponding frequency shift Δν = ΔE / h,
    with ground-state helpers for Rubidium-87 and Rubidium-85.

    All quantities are modelled exactly over `real`; the physical constants
    are the decimal literals of the source. A division by zero in the source
    (J·(J+1) = 0, F·(F+1) = 0, h = 0) is a precondition here.
 */
module Zeeman {

  // Physical constants (SI units)
  /** Bohr magneton, J/T */
  const MU_B: real := 9.274009994e-24
  /** Planck constant, J·s */
  const HPLANCK: real := 6.62607015e-34

  // Electron spin and orbital g-factors
  const G_S: real := 2.00231930436256
  const G_L: real := 1.0

  // Rubidium nuclear spins and nuclear g-factors
  const I_RB87: real := 3.0 / 2.0
  const I_RB85: real := 5.0 / 2.0
  const G_I_RB87: real := -0.0009951414
  const G_I_RB85: real := -0.0002936400

  /** Absolute value, used to state tolerances. */
  function Abs(x: real): real
  {
    if x < 0.0 then -x else x
  }

  // ---------------------------------------------------------------------
  // Landé g-factors
  // ---------------------------------------------------------------------

  /** Two weights over a common nonzero denominator d that sum to d make an
      affine combination: the result is a plus (b - a) times the second weight. */
  lemma AffineCombination(a: real, b: real, x: real, y: real, d: real)
    requires d != 0.0 && x + y == d
    ensures a * x / d + b * y / d == a + (b - a) * (y / d)
  {
    assert a * x / d == a * (x / d);
    assert b * y / d == b * (y / d);
    assert x / d + y / d == 1.0;
  }

  /** Electronic Landé g-factor g_J from L, S and J.
      The result is an affine combination of g_l and g_s whose weights sum
      to one; the weight of g_s is (J(J+1) + S(S+1) - L(L+1)) / (2 J(J+1)). */
  function GJ(L: real, S: real, J: real, gS: real := G_S, gL: real := G_L): (r: real)
    requires J * (J + 1.0) != 0.0
    ensures r == gL + (gS - gL) * ((J * (J + 1.0) + S * (S + 1.0) - L * (L + 1.0)) / (2.0 * (J * (J + 1.0))))
  {
    var jterm := J * (J + 1.0);
    var lterm := L * (L + 1.0);
    var sterm := S * (S + 1.0);
    AffineCombination(gL, gS, jterm + lterm - sterm, jterm + sterm - lterm, 2.0 * jterm);
    gL * (jterm + lterm - sterm) / (2.0 * jterm)
    + gS * (jterm + sterm - lterm) / (2.0 * jterm)
  }

  /** Hyperfine Landé g-factor g_F from I, J, F, g_J and the nuclear g_I.
      The result is an affine combination of g_J and g_I whose weights sum
      to one; the weight of g_I is (F(F+1) + I(I+1) - J(J+1)) / (2 F(F+1)). */
  function GF(I: real, J: real, F: real, gJ: real, gI: real): (r: real)
    requires F * (F + 1.0) != 0.0
    ensures r == gJ + (gI - gJ) * ((F * (F + 1.0) + I * (I + 1.0) - J * (J + 1.0)) / (2.0 * (F * (F + 1.0))))
  {
    var fterm := F * (F + 1.0);
    var jterm := J * (J + 1.0);
    var iterm := I * (I + 1.0);
    AffineCombination(gJ, gI, fterm + jterm - iterm, fterm + iterm - jterm, 2.0 * fterm);
    gJ * (fterm + jterm - iterm) / (2.0 * fterm)
    + gI * (fterm + iterm - jterm) / (2.0 * fterm)
  }

  /** With no orbital momentum (L = 0, S = J) g_J is exactly the spin g-factor. */
  lemma GJSpinOnly(S: real, gS: real, gL: real)
    requires S * (S + 1.0) != 0.0
    ensures GJ(0.0, S, S, gS, gL) == gS
  {
    var t := S * (S + 1.0);
    assert (t + t - 0.0) / (2.0 * t) == 1.0;
  }

  /** With no spin (S = 0, L = J) g_J is exactly the orbital g-factor. */
  lemma GJOrbitalOnly(L: real, gS: real, gL: real)
    requires L * (L + 1.0) != 0.0
    ensures GJ(L, 0.0, L, gS, gL) == gL
  {
    var t := L * (L + 1.0);
    assert (t + 0.0 - t) / (2.0 * t) == 0.0;
  }

  /** When spin and orbit carry the same g-factor, so does J. */
  lemma GJEqualFactors(L: real, S: real, J: real, g: real)
    requires J * (J + 1.0) != 0.0
    ensures GJ(L, S, J, g, g) == g
  {
  }

  /** The free-electron ground state L = 0, S = J = 1/2 has g_J = G_S. */
  lemma GJGroundState()
    ensures GJ(0.0, 0.5, 0.5) == G_S
    ensures Abs(GJ(0.0, 0.5, 0.5) - 2.0023) < 0.00005
  {
    GJSpinOnly(0.5, G_S, G_L);
  }

  /** Without nuclear spin (I = 0, F = J) g_F is g_J, whatever g_I is. */
  lemma GFNoNuclearSpin(J: real, gJ: real, gI: real)
    requires J * (J + 1.0) != 0.0
    ensures GF(0.0, J, J, gJ, gI) == gJ
  {
    var t := J * (J + 1.0);
    assert (t + 0.0 - t) / (2.0 * t) == 0.0;
  }

  /** When electron and nucleus carry the same g-factor, so does F. */
  lemma GFEqualFactors(I: real, J: real, F: real, g: real)
    requires F * (F + 1.0) != 0.0
    ensures GF(I, J, F, g, g) == g
  {
  }

  /** Stretched state F = I + J: g_F is the J- and I-weighted mean of g_J and g_I. */
  lemma GFStretched(I: real, J: real, gJ: real, gI: real)
    requires (I + J) * (I + J + 1.0) != 0.0
    ensures (I + J) * GF(I, J, I + J, gJ, gI) == J * gJ + I * gI
  {
    var F := I + J;
    var fterm := F * (F + 1.0);
    var w := (fterm + I * (I + 1.0) - J * (J + 1.0)) / (2.0 * fterm);
    assert fterm + I * (I + 1.0) - J * (J + 1.0) == 2.0 * I * (F + 1.0);
    assert w == I / F by {
      assert 2.0 * fterm == 2.0 * F * (F + 1.0);
      assert (2.0 * I * (F + 1.0)) / (2.0 * F * (F + 1.0)) == I / F;
    }
    calc {
      F * GF(I, J, F, gJ, gI);
      F * (gJ + (gI - gJ) * w);
      F * gJ + (gI - gJ) * (F * (I / F));
      { assert F * (I / F) == I; }
      F * gJ + (gI - gJ) * I;
      J * gJ + I * gI;
    }
  }

  /** J = 1/2 ground state, upper level F = I + 1/2:
      g_F = (g_J + 2I·g_I) / (2I + 1). */
  lemma GFHalfUpper(I: real, gJ: real, gI: real)
    requires (I + 0.5) * (I + 1.5) != 0.0
    ensures (2.0 * I + 1.0) * GF(I, 0.5, I + 0.5, gJ, gI) == gJ + 2.0 * I * gI
  {
    GFStretched(I, 0.5, gJ, gI);
  }

  /** (p·c) / (q·c) = p / q for nonzero q and c. */
  lemma CancelFactor(p: real, q: real, c: real)
    requires q != 0.0 && c != 0.0
    ensures (p * c) / (q * c) == p / q
  {
    var x := p / q;
    assert x * q == p;
    assert q * c != 0.0;
    assert x * (q * c) == p * c;
  }

  /** Numerator of the g_I weight of g_F for J = 1/2 and F = I - 1/2. */
  function LowerWeightNum(I: real): real
  {
    (I - 0.5) * ((I - 0.5) + 1.0) + I * (I + 1.0) - 0.5 * (0.5 + 1.0)
  }

  /** Denominator of the g_I weight of g_F for J = 1/2 and F = I - 1/2. */
  function LowerWeightDen(I: real): real
  {
    2.0 * ((I - 0.5) * ((I - 0.5) + 1.0))
  }

  /** For J = 1/2 and F = I - 1/2 the g_I weight of g_F is (I + 1) / (I + 1/2). */
  lemma HalfLowerWeight(I: real)
    requires (I - 0.5) * (I + 0.5) != 0.0
    ensures (I + 0.5) * (LowerWeightNum(I) / LowerWeightDen(I)) == I + 1.0
  {
    var a := 2.0 * (I - 0.5);
    var num := LowerWeightNum(I);
    var den := LowerWeightDen(I);
    assert I - 0.5 != 0.0 && I + 0.5 != 0.0;
    assert num == (I + 1.0) * a;
    assert den == (I + 0.5) * a;
    CancelFactor(I + 1.0, I + 0.5, a);
    assert num / den == (I + 1.0) / (I + 0.5);
    assert (I + 0.5) * ((I + 1.0) / (I + 0.5)) == I + 1.0;
  }

  /** J = 1/2 ground state, lower level F = I - 1/2:
      g_F = (-g_J + (2I + 2)·g_I) / (2I + 1). */
  lemma GFHalfLower(I: real, gJ: real, gI: real)
    requires (I - 0.5) * (I + 0.5) != 0.0
    ensures (2.0 * I + 1.0) * GF(I, 0.5, I - 0.5, gJ, gI) == -gJ + (2.0 * I + 2.0) * gI
  {
    var F := I - 0.5;
    var w := LowerWeightNum(I) / LowerWeightDen(I);
    HalfLowerWeight(I);
    assert (I + 0.5) * w == I + 1.0;
    assert GF(I, 0.5, F, gJ, gI) == gJ + (gI - gJ) * w;
    calc {
      (2.0 * I + 1.0) * (gJ + (gI - gJ) * w);
      (2.0 * I + 1.0) * gJ + 2.0 * (gI - gJ) * ((I + 0.5) * w);
      (2.0 * I + 1.0) * gJ + 2.0 * (gI - gJ) * (I + 1.0);
    }
  }

  // ---------------------------------------------------------------------
  // Zeeman energy and frequency shifts
  // ---------------------------------------------------------------------

  /** Weak-field Zeeman energy shift ΔE = μ_B·g_F·B·m_F (J) for a scalar field
      B (T) and a scalar m_F. It vanishes exactly when one of the factors does. */
  function ZeemanShift(B: real, mF: real, gF: real, muB: real := MU_B): (r: real)
    ensures r == 0.0 <==> (muB == 0.0 || gF == 0.0 || B == 0.0 || mF == 0.0)
  {
    muB * gF * B * mF
  }

  /** Zeeman frequency shift Δν = ΔE / h (Hz); multiplying back by h gives the
      energy shift. */
  function ZeemanFrequency(B: real, mF: real, gF: real, muB: real := MU_B, h: real := HPLANCK): (r: real)
    requires h != 0.0
    ensures r * h == ZeemanShift(B, mF, gF, muB)
  {
    var energy := ZeemanShift(B, mF, gF, muB);
    energy / h
  }

  /** Zero field, zero shift. */
  lemma ShiftZeroField(mF: real, gF: real, muB: real)
    ensures ZeemanShift(0.0, mF, gF, muB) == 0.0
  {
  }

  /** The shift is linear in the field. */
  lemma ShiftLinearInField(k: real, B: real, mF: real, gF: real, muB: real)
    ensures ZeemanShift(k * B, mF, gF, muB) == k * ZeemanShift(B, mF, gF, muB)
  {
    assert muB * gF * (k * B) * mF == k * (muB * gF * B * mF);
  }

  /** The shift is odd in m_F. */
  lemma ShiftOddInMF(B: real, mF: real, gF: real, muB: real)
    ensures ZeemanShift(B, -mF, gF, muB) == -ZeemanShift(B, mF, gF, muB)
  {
  }

  /** The frequency shift is the energy shift divided by h, exactly. */
  lemma FrequencyIsShiftOverH(B: real, mF: real, gF: real, muB: real, h: real)
    requires h != 0.0
    ensures ZeemanFrequency(B, mF, gF, muB, h) == ZeemanShift(B, mF, gF, muB) / h
  {
  }

  // Elementwise case: a 1-D array of fields B with a scalar m_F.

  /** k·B for an array B. */
  function Scale(k: real, xs: seq<real>): (rs: seq<real>)
    ensures |rs| == |xs|
    ensures forall i :: 0 <= i < |xs| ==> rs[i] == k * xs[i]
  {
    if xs == [] then [] else [k * xs[0]] + Scale(k, xs[1..])
  }

  /** Elementwise division of an array by a nonzero scalar. */
  function DivideEach(xs: seq<real>, h: real): (rs: seq<real>)
    requires h != 0.0
    ensures |rs| == |xs|
    ensures forall i :: 0 <= i < |xs| ==> rs[i] * h == xs[i]
  {
    if xs == [] then [] else [xs[0] / h] + DivideEach(xs[1..], h)
  }

  /** Energy shifts for an array of fields and a scalar m_F: an array of the
      same length whose entry i is the scalar shift at B[i]. */
  function ZeemanShiftArray(Bs: seq<real>, mF: real, gF: real, muB: real := MU_B): (rs: seq<real>)
    ensures |rs| == |Bs|
    ensures forall i :: 0 <= i < |Bs| ==> rs[i] == muB * gF * Bs[i] * mF
  {
    if Bs == [] then [] else [ZeemanShift(Bs[0], mF, gF, muB)] + ZeemanShiftArray(Bs[1..], mF, gF, muB)
  }

  /** Frequency shifts for an array of fields and a scalar m_F: the energy-shift
      array divided elementwise by h; entry i is the scalar frequency at B[i]. */
  function ZeemanFrequencyArray(Bs: seq<real>, mF: real, gF: real, muB: real := MU_B, h: real := HPLANCK): (rs: seq<real>)
    requires h != 0.0
    ensures |rs| == |Bs|
    ensures forall i :: 0 <= i < |Bs| ==> rs[i] == ZeemanFrequency(Bs[i], mF, gF, muB, h)
  {
    var energy := ZeemanShiftArray(Bs, mF, gF, muB);
    DivideEach(energy, h)
  }

  /** Elementwise, the frequency array is the energy array divided by h. */
  lemma FrequencyArrayIsShiftOverH(Bs: seq<real>, mF: real, gF: real, muB: real, h: real)
    requires h != 0.0
    ensures forall i :: 0 <= i < |Bs| ==>
      ZeemanFrequencyArray(Bs, mF, gF, muB, h)[i] == ZeemanShiftArray(Bs, mF, gF, muB)[i] / h
  {
  }

  /** An all-zero field array gives an all-zero shift array. */
  lemma ShiftArrayZeroField(Bs: seq<real>, mF: real, gF: real, muB: real)
    requires forall i :: 0 <= i < |Bs| ==> Bs[i] == 0.0
    ensures forall i :: 0 <= i < |Bs| ==> ZeemanShiftArray(Bs, mF, gF, muB)[i] == 0.0
  {
  }

  /** The array shift is linear in the field array. */
  lemma ShiftArrayLinearInField(k: real, Bs: seq<real>, mF: real, gF: real, muB: real)
    ensures ZeemanShiftArray(Scale(k, Bs), mF, gF, muB) == Scale(k, ZeemanShiftArray(Bs, mF, gF, muB))
  {
    var lhs := ZeemanShiftArray(Scale(k, Bs), mF, gF, muB);
    var rhs := Scale(k, ZeemanShiftArray(Bs, mF, gF, muB));
    forall i | 0 <= i < |Bs|
      ensures lhs[i] == rhs[i]
    {
      ShiftLinearInField(k, Bs[i], mF, gF, muB);
    }
  }

  /** The array shift is odd in m_F. */
  lemma ShiftArrayOddInMF(Bs: seq<real>, mF: real, gF: real, muB: real)
    ensures ZeemanShiftArray(Bs, -mF, gF, muB) == Scale(-1.0, ZeemanShiftArray(Bs, mF, gF, muB))
  {
    var lhs := ZeemanShiftArray(Bs, -mF, gF, muB);
    var rhs := Scale(-1.0, ZeemanShiftArray(Bs, mF, gF, muB));
    forall i | 0 <= i < |Bs|
      ensures lhs[i] == rhs[i]
    {
      ShiftOddInMF(Bs[i], mF, gF, muB);
    }
  }

  // ---------------------------------------------------------------------
  // Rubidium 5S_1/2 ground state
  // ---------------------------------------------------------------------

  /** g_F of the 87Rb ground state (J = 1/2, L = 0, S = 1/2, I = 3/2): g_J is
      exactly G_S. Any F with F(F+1) ≠ 0 is accepted; 1 and 2 are physical. */
  function Rb87GroundGF(F: int): (r: real)
    requires F * (F + 1) != 0
    ensures r == GF(I_RB87, 0.5, F as real, G_S, G_I_RB87)
  {
    var J := 0.5;
    var L := 0.0;
    var S := 0.5;
    var gj := GJ(L, S, J);
    GF(I_RB87, J, F as real, gj, G_I_RB87)
  }

  /** g_F of the 85Rb ground state (J = 1/2, L = 0, S = 1/2, I = 5/2): g_J is
      exactly G_S. Any F with F(F+1) ≠ 0 is accepted; 2 and 3 are physical. */
  function Rb85GroundGF(F: int): (r: real)
    requires F * (F + 1) != 0
    ensures r == GF(I_RB85, 0.5, F as real, G_S, G_I_RB85)
  {
    var J := 0.5;
    var L := 0.0;
    var S := 0.5;
    var gj := GJ(L, S, J);
    GF(I_RB85, J, F as real, gj, G_I_RB85)
  }

  /** Closed forms of the 87Rb ground-state g-factors. */
  lemma Rb87GroundGFClosedForms()
    ensures Rb87GroundGF(2) == G_S / 4.0 + 3.0 * G_I_RB87 / 4.0
    ensures Rb87GroundGF(1) == -G_S / 4.0 + 5.0 * G_I_RB87 / 4.0
  {
    GFHalfUpper(I_RB87, G_S, G_I_RB87);
    GFHalfLower(I_RB87, G_S, G_I_RB87);
  }

  /** Closed forms of the 85Rb ground-state g-factors. */
  lemma Rb85GroundGFClosedForms()
    ensures Rb85GroundGF(3) == G_S / 6.0 + 5.0 * G_I_RB85 / 6.0
    ensures Rb85GroundGF(2) == -G_S / 6.0 + 7.0 * G_I_RB85 / 6.0
  {
    GFHalfUpper(I_RB85, G_S, G_I_RB85);
    GFHalfLower(I_RB85, G_S, G_I_RB85);
  }
}
