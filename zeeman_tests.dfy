/** The checks of the module's unit tests, stated as lemmas over the exact
    model. A comparison to 4 decimal places is |actual - expected| < 0.00005. */
module ZeemanTests {
  import opened Zeeman

  /** 87Rb ground-state g-factors agree with -0.5018 (F = 1) and 0.4998
      (F = 2) to 4 decimal places; F = 1 is negative and F = 2 positive. */
  lemma Rb87GroundGFValues()
    ensures Abs(Rb87GroundGF(1) - (-0.5018)) < 0.00005
    ensures Abs(Rb87GroundGF(2) - 0.4998) < 0.00005
    ensures Rb87GroundGF(1) < 0.0 < Rb87GroundGF(2)
  {
    Rb87GroundGFClosedForms();
  }

  /** Five fields evenly spaced from 0 to 1 mT and m_F = 1: the energy shifts
      are μ_B·g_F·B[i], and dividing them by h gives the frequency shifts.
      This holds for every g_F, in particular for g_F of 87Rb F = 2. */
  lemma EnergyFrequencyConsistency(gF: real)
    ensures
      var Bs := [0.0, 0.00025, 0.0005, 0.00075, 0.001];
      var energy := ZeemanShiftArray(Bs, 1.0, gF);
      var freq := ZeemanFrequencyArray(Bs, 1.0, gF);
      |energy| == |freq| == 5 &&
      (forall i :: 0 <= i < 5 ==> energy[i] == MU_B * gF * Bs[i]) &&
      (forall i :: 0 <= i < 5 ==> energy[i] / HPLANCK == freq[i])
  {
    var Bs := [0.0, 0.00025, 0.0005, 0.00075, 0.001];
    FrequencyArrayIsShiftOverH(Bs, 1.0, gF, MU_B, HPLANCK);
  }
}
