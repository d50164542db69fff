# Zeeman shifts of hyperfine levels

A Dafny model of `atomic_tools/zeeman.py`. This module computes Zeeman energy
and frequency shifts for hyperfine atomic levels. It has four parts:

- the electronic Landé g-factor g_J, built from L, S and J;
- the hyperfine Landé g-factor g_F, built from I, J, F, g_J and the nuclear g_I;
- the weak-field energy shift ΔE = μ_B·g_F·B·m_F and the frequency shift
  Δν = ΔE / h;
- ground-state g_F helpers for Rubidium-87 and Rubidium-85.

Every quantity is a rational function of its inputs. So the model computes
exactly over Dafny `real`. The module constants (`MU_B`, `HPLANCK`, `G_S`,
`G_L`, `I_RB87`, `I_RB85`, `G_I_RB87`, `G_I_RB85`) are the source's decimal
literals, written as real literals. Default arguments of the source
(`g_s = G_S`, `g_l = G_L`, `mu_b = MU_B`, `h = HPLANCK`) are Dafny default
parameter values.

Files:

- `zeeman.dfy`, module `Zeeman`: the constants, the functions, and the lemmas
  about them.
- `zeeman_tests.dfy`, module `ZeemanTests`: the checks of
  `tests/test_zeeman.py`, stated as lemmas over the exact model.

Each division by zero in the source is a `requires`:
- J·(J+1) ≠ 0 for g_J;
- F·(F+1) ≠ 0 for g_F and for the Rubidium helpers;
- h ≠ 0 for the frequency.

The source itself never checks the quantum numbers. So apart from these
divisors, the model accepts any real L, S, J, I, F and any integer F for the
Rubidium helpers.

Numpy broadcasting is modelled in two cases:
- the scalar case: `ZeemanShift` and `ZeemanFrequency`;
- a 1-D array of fields B with a scalar m_F, as a `seq<real>`:
  `ZeemanShiftArray` and `ZeemanFrequencyArray`.

## Model

| member | source | states |
|---|---|---|
| Zeeman.GJ | atomic_tools/zeeman.py:22-44 | defined when J(J+1) ≠ 0; g_J = g_l + (g_s − g_l)·w with w = (J(J+1)+S(S+1)−L(L+1)) / (2J(J+1)), an affine combination of g_l and g_s whose weights sum to one |
| Zeeman.GF | atomic_tools/zeeman.py:47-69 | defined when F(F+1) ≠ 0; g_F = g_J + (g_I − g_J)·w with w = (F(F+1)+I(I+1)−J(J+1)) / (2F(F+1)), an affine combination of g_J and g_I |
| Zeeman.GJSpinOnly | atomic_tools/zeeman.py:38-44 | with L = 0 and S = J (J(J+1) ≠ 0), g_J equals g_s exactly |
| Zeeman.GJOrbitalOnly | atomic_tools/zeeman.py:38-44 | with S = 0 and L = J, g_J equals g_l exactly |
| Zeeman.GJEqualFactors | atomic_tools/zeeman.py:38-44 | when g_s = g_l = g, g_J = g for every L, S, J |
| Zeeman.GJGroundState | atomic_tools/zeeman.py:150-153 | g_j(0, 0.5, 0.5) with the default factors is exactly G_S, so it is 2.0023 to 4 decimal places |
| Zeeman.GFNoNuclearSpin | atomic_tools/zeeman.py:63-69 | with I = 0 and F = J, g_F equals g_J exactly, whatever g_I is |
| Zeeman.GFEqualFactors | atomic_tools/zeeman.py:63-69 | when g_J = g_I = g, g_F = g for every I, J, F |
| Zeeman.GFStretched | atomic_tools/zeeman.py:63-69 | for F = I + J, (I+J)·g_F = J·g_J + I·g_I |
| Zeeman.GFHalfUpper | atomic_tools/zeeman.py:63-69 | for J = 1/2 and F = I + 1/2, (2I+1)·g_F = g_J + 2I·g_I |
| Zeeman.GFHalfLower | atomic_tools/zeeman.py:63-69 | for J = 1/2 and F = I − 1/2, (2I+1)·g_F = −g_J + (2I+2)·g_I |
| Zeeman.ZeemanShift | atomic_tools/zeeman.py:72-98 | the scalar energy shift is zero if and only if one of μ_B, g_F, B, m_F is zero |
| Zeeman.ZeemanFrequency | atomic_tools/zeeman.py:101-124 | for h ≠ 0, the frequency shift times h is the energy shift |
| Zeeman.ShiftZeroField | atomic_tools/zeeman.py:96-98 | zero field gives zero shift, for every m_F, g_F, μ_B |
| Zeeman.ShiftLinearInField | atomic_tools/zeeman.py:96-98 | shift(k·B) = k·shift(B) |
| Zeeman.ShiftOddInMF | atomic_tools/zeeman.py:96-98 | shift(B, −m_F) = −shift(B, m_F) |
| Zeeman.FrequencyIsShiftOverH | atomic_tools/zeeman.py:123-124 | for h ≠ 0, frequency = shift / h exactly |
| Zeeman.DivideEach | atomic_tools/zeeman.py:124 | elementwise division of an array by a nonzero scalar keeps the length, and each entry times h is the original entry |
| Zeeman.ZeemanShiftArray | atomic_tools/zeeman.py:96-98 | for a 1-D field array and scalar m_F, the result has the length of B and entry i is μ_B·g_F·B[i]·m_F |
| Zeeman.ZeemanFrequencyArray | atomic_tools/zeeman.py:123-124 | for a 1-D field array, the result has the length of B and entry i is the scalar frequency shift at B[i] |
| Zeeman.FrequencyArrayIsShiftOverH | atomic_tools/zeeman.py:123-124 | elementwise, the frequency array is the energy array divided by h |
| Zeeman.ShiftArrayZeroField | atomic_tools/zeeman.py:96-98 | an all-zero field array gives an all-zero shift array |
| Zeeman.ShiftArrayLinearInField | atomic_tools/zeeman.py:96-98 | the array shift of k·B is k times the array shift of B |
| Zeeman.ShiftArrayOddInMF | atomic_tools/zeeman.py:96-98 | the array shift at −m_F is the negated array shift at m_F |
| Zeeman.Rb87GroundGF | atomic_tools/zeeman.py:137-154 | defined when F(F+1) ≠ 0; it is g_F for I = 3/2, J = 1/2 and g_I = G_I_RB87, with g_J exactly G_S |
| Zeeman.Rb85GroundGF | atomic_tools/zeeman.py:157-163 | defined when F(F+1) ≠ 0; it is g_F for I = 5/2, J = 1/2 and g_I = G_I_RB85, with g_J exactly G_S |
| Zeeman.Rb87GroundGFClosedForms | atomic_tools/zeeman.py:130-154 | rb87_ground_gf(2) = G_S/4 + 3·G_I_RB87/4 and rb87_ground_gf(1) = −G_S/4 + 5·G_I_RB87/4 |
| Zeeman.Rb85GroundGFClosedForms | atomic_tools/zeeman.py:130-163 | rb85_ground_gf(3) = G_S/6 + 5·G_I_RB85/6 and rb85_ground_gf(2) = −G_S/6 + 7·G_I_RB85/6 |
| ZeemanTests.Rb87GroundGFValues | tests/test_zeeman.py:11-15 | with the literal constants, rb87_ground_gf(1) is within 0.00005 of −0.5018 and rb87_ground_gf(2) within 0.00005 of 0.4998; the first is negative and the second positive |
| ZeemanTests.EnergyFrequencyConsistency | tests/test_zeeman.py:17-23 | for the five fields 0, 0.25, 0.5, 0.75, 1 mT and m_F = 1, energy and frequency arrays have 5 entries, energy[i] = μ_B·g_F·B[i], and energy[i] / h = freq[i], for every g_F |

## Left out

- IEEE-754 double arithmetic: the model computes exactly over `real`, so rounding, NaN and infinity are not modelled. The tests compare only within tolerances.
- The failure at J·(J+1) = 0 or F·(F+1) = 0 (a `ZeroDivisionError` on Python floats) is a precondition, not an error result. The same holds for h = 0, where numpy returns infinity or NaN.
- Numpy conversion (`np.asarray(..., dtype=float)`) and general N-dimensional broadcasting, including shape-mismatch errors. Only the scalar case and the case of a 1-D field array with a scalar m_F are modelled.
- `np.linspace` in the test: the model uses its five values as a literal sequence.
- ZeemanTests.EnergyFrequencyConsistency: stated for every g_F rather than for the value `rb87_ground_gf(2)` alone. That is stronger than the test; the concrete value would make the verifier unfold the whole computation.
- Rb87GroundGF / Rb85GroundGF: F is an `int`, as the source's type annotation says. The source converts it with `float(F)`; the model uses `F as real`.
- Physical validity of quantum numbers (triangle rule, allowed F per isotope): the source never checks it, so neither does the model.
- `tests/__init__.py` only adjusts the import path and holds no logic.
