/** Per-layer optical coefficients: the additive absorption model and the
    power-law scattering model with its anisotropy guard. */
module OpticalProperties {
  import opened Constants

  /** A real power `x^e`. The model never evaluates non-integer powers; it
      takes the power function as a parameter and, where a property needs it,
      assumes only what `PowerLaw` states. */
  type PowFn = (real, real) -> real

  /** What the lemmas need of the power function: a positive base gives a
      positive power, and one raised to any exponent is one. */
  ghost predicate PowerLaw(pow: PowFn) {
    (forall x, e :: x > 0.0 ==> pow(x, e) > 0.0) && (forall e :: pow(1.0, e) == 1.0)
  }

  /** Background tissue absorption `7.84e7 * wl^-3.255` (wl in nm). */
  const BackgroundAmplitude: real := 78400000.0
  const BackgroundExponent: real := -3.255

  /** Wavelength (nm) at which the reduced scattering equals `a_scatter`. */
  const ReferenceWavelength: real := 500.0

  /** `1 - g` must exceed this before the scattering conversion divides by it. */
  const AnisotropyGuard: real := 0.000001

  // ---------------------------------------------------------------------------
  // Absorption
  // ---------------------------------------------------------------------------

  /** Haemoglobin extinction at saturation `sO2`: oxy- and deoxy-haemoglobin
      mixed linearly. */
  function MixedHb(wl: real, sO2: real): real {
    sO2 * EpsHbO2(wl) + (1.0 - sO2) * EpsHb(wl)
  }

  /** The blood term; fully saturated it is pure oxyhaemoglobin, fully
      desaturated pure deoxyhaemoglobin. */
  function BloodMuA(wl: real, cBlood: real, sO2: real): (r: real)
    ensures sO2 == 1.0 ==> r == cBlood * EpsHbO2(wl)
    ensures sO2 == 0.0 ==> r == cBlood * EpsHb(wl)
  {
    cBlood * MixedHb(wl, sO2)
  }

  /** The background term, independent of every layer parameter and positive
      at every positive wavelength. */
  function BackgroundMuA(pow: PowFn, wl: real): (r: real)
    ensures PowerLaw(pow) && wl > 0.0 ==> r > 0.0
  {
    BackgroundAmplitude * pow(wl, BackgroundExponent)
  }

  /** `get_layer_mu_a`: blood, water, melanin and background absorption, in
      1/mm. */
  function GetLayerMuA(pow: PowFn, wl: real, cBlood: real, cWater: real, cMelanin: real, sO2: real): real {
    var bloodTerm := BloodMuA(wl, cBlood, sO2);
    var waterTerm := cWater * EpsWater(wl);
    var melaninTerm := cMelanin * EpsMelanin(wl);
    var other := BackgroundMuA(pow, wl);
    bloodTerm + waterTerm + melaninTerm + other
  }

  /** For saturations in [0, 1] the mixed extinction lies between the two
      haemoglobin extinctions. */
  lemma MixedHbBetween(wl: real, sO2: real)
    requires 0.0 <= sO2 <= 1.0
    ensures EpsHb(wl) <= EpsHbO2(wl) ==> EpsHb(wl) <= MixedHb(wl, sO2) <= EpsHbO2(wl)
    ensures EpsHbO2(wl) <= EpsHb(wl) ==> EpsHbO2(wl) <= MixedHb(wl, sO2) <= EpsHb(wl)
  {
    ConvexMix(EpsHb(wl), EpsHbO2(wl), sO2, MixedHb(wl, sO2));
  }

  lemma ConvexMix(p: real, q: real, s: real, m: real)
    requires 0.0 <= s <= 1.0 && m == s * q + (1.0 - s) * p
    ensures p <= q ==> p <= m <= q
    ensures q <= p ==> q <= m <= p
  {
    assert m == p + s * (q - p);
    if p <= q {
      ProductNonNegative(s, q - p);
      ProductNonNegative(1.0 - s, q - p);
    } else {
      ProductNonNegative(s, p - q);
      ProductNonNegative(1.0 - s, p - q);
    }
  }

  lemma ProductNonNegative(a: real, b: real)
    requires a >= 0.0 && b >= 0.0
    ensures a * b >= 0.0
  {
  }

  /** With no blood, water or melanin only the background absorbs. */
  lemma MuANoChromophores(pow: PowFn, wl: real, sO2: real)
    ensures GetLayerMuA(pow, wl, 0.0, 0.0, 0.0, sO2) == BackgroundMuA(pow, wl)
  {
  }

  /** Non-negative concentrations, a saturation in [0, 1] and non-negative
      extinctions give a positive absorption coefficient. */
  lemma MuAPositive(pow: PowFn, wl: real, cBlood: real, cWater: real, cMelanin: real, sO2: real)
    requires PowerLaw(pow) && wl > 0.0
    requires cBlood >= 0.0 && cWater >= 0.0 && cMelanin >= 0.0 && 0.0 <= sO2 <= 1.0
    requires EpsHb(wl) >= 0.0 && EpsHbO2(wl) >= 0.0 && EpsWater(wl) >= 0.0 && EpsMelanin(wl) >= 0.0
    ensures GetLayerMuA(pow, wl, cBlood, cWater, cMelanin, sO2) > 0.0
  {
    MixedHbBetween(wl, sO2);
    ProductNonNegative(cBlood, MixedHb(wl, sO2));
    ProductNonNegative(cWater, EpsWater(wl));
    ProductNonNegative(cMelanin, EpsMelanin(wl));
  }

  /** Inside the tabulated range [470, 880] nm every extinction is positive,
      so the absorption of physical parameters is positive there. */
  lemma MuAPositiveInside(pow: PowFn, wl: real, cBlood: real, cWater: real, cMelanin: real, sO2: real)
    requires PowerLaw(pow) && 470.0 <= wl <= 880.0
    requires cBlood >= 0.0 && cWater >= 0.0 && cMelanin >= 0.0 && 0.0 <= sO2 <= 1.0
    ensures GetLayerMuA(pow, wl, cBlood, cWater, cMelanin, sO2) > 0.0
  {
    ExtinctionsPositiveInside(wl);
    MuAPositive(pow, wl, cBlood, cWater, cMelanin, sO2);
  }

  /** The absorption is affine in the blood fraction, with slope the mixed
      haemoglobin extinction; so it grows with blood whenever that is
      non-negative. */
  lemma MuAAffineInBlood(pow: PowFn, wl: real, c1: real, c2: real, cWater: real, cMelanin: real, sO2: real)
    ensures GetLayerMuA(pow, wl, c2, cWater, cMelanin, sO2) - GetLayerMuA(pow, wl, c1, cWater, cMelanin, sO2)
            == (c2 - c1) * MixedHb(wl, sO2)
    ensures MixedHb(wl, sO2) >= 0.0 && c1 <= c2 ==>
              GetLayerMuA(pow, wl, c1, cWater, cMelanin, sO2) <= GetLayerMuA(pow, wl, c2, cWater, cMelanin, sO2)
  {
    var m := MixedHb(wl, sO2);
    var rest := cWater * EpsWater(wl) + cMelanin * EpsMelanin(wl) + BackgroundMuA(pow, wl);
    assert GetLayerMuA(pow, wl, c1, cWater, cMelanin, sO2) == c1 * m + rest;
    assert GetLayerMuA(pow, wl, c2, cWater, cMelanin, sO2) == c2 * m + rest;
    assert c2 * m - c1 * m == (c2 - c1) * m;
    if m >= 0.0 && c1 <= c2 {
      ProductNonNegative(c2 - c1, m);
    }
  }

  // ---------------------------------------------------------------------------
  // Scattering
  // ---------------------------------------------------------------------------

  /** Reduced scattering `a * (wl / 500)^-b`. */
  function MuSPrime(pow: PowFn, wl: real, aScatter: real, bScatter: real): real {
    aScatter * pow(wl / ReferenceWavelength, -bScatter)
  }

  /** `get_layer_mu_s`: the scattering coefficient whose reduced value
      `mu_s * (1 - g)` is `mu_s'`, except that near `g = 1` (where `1 - g` does
      not exceed the guard) the reduced value itself is returned. */
  function GetLayerMuS(pow: PowFn, wl: real, aScatter: real, bScatter: real, g: real): (r: real)
    ensures 1.0 - g > AnisotropyGuard ==> r * (1.0 - g) == MuSPrime(pow, wl, aScatter, bScatter)
    ensures 1.0 - g <= AnisotropyGuard ==> r == MuSPrime(pow, wl, aScatter, bScatter)
  {
    var muSPrime := MuSPrime(pow, wl, aScatter, bScatter);
    if 1.0 - g > AnisotropyGuard then muSPrime / (1.0 - g) else muSPrime
  }

  /** At the reference wavelength the reduced scattering is the amplitude. */
  lemma MuSPrimeAtReference(pow: PowFn, aScatter: real, bScatter: real)
    requires PowerLaw(pow)
    ensures MuSPrime(pow, ReferenceWavelength, aScatter, bScatter) == aScatter
  {
    assert ReferenceWavelength / ReferenceWavelength == 1.0;
  }

  /** A non-negative amplitude gives a non-negative reduced scattering. */
  lemma MuSPrimeNonNegative(pow: PowFn, wl: real, aScatter: real, bScatter: real)
    requires PowerLaw(pow) && wl > 0.0 && aScatter >= 0.0
    ensures MuSPrime(pow, wl, aScatter, bScatter) >= 0.0
  {
    assert wl / ReferenceWavelength > 0.0;
    assert pow(wl / ReferenceWavelength, -bScatter) > 0.0;
  }

  /** The scattering coefficient is non-negative for every anisotropy, and
      never exceeds the reduced value divided by the guard, so it stays finite
      as `g` approaches 1. */
  lemma MuSNonNegativeAndBounded(pow: PowFn, wl: real, aScatter: real, bScatter: real, g: real)
    requires PowerLaw(pow) && wl > 0.0 && aScatter >= 0.0
    ensures 0.0 <= GetLayerMuS(pow, wl, aScatter, bScatter, g)
    ensures GetLayerMuS(pow, wl, aScatter, bScatter, g) * AnisotropyGuard
            <= MuSPrime(pow, wl, aScatter, bScatter)
  {
    var m := MuSPrime(pow, wl, aScatter, bScatter);
    var r := GetLayerMuS(pow, wl, aScatter, bScatter, g);
    MuSPrimeNonNegative(pow, wl, aScatter, bScatter);
    if 1.0 - g > AnisotropyGuard {
      assert r * (1.0 - g) == m;
      assert r >= 0.0;
      assert r * (1.0 - g) - r * AnisotropyGuard == r * (1.0 - g - AnisotropyGuard);
      ProductNonNegative(r, 1.0 - g - AnisotropyGuard);
    } else {
      assert r == m;
    }
  }

  /** For forward-scattering layers inside the guard the scattering
      coefficient is at least the reduced value; without anisotropy the two
      coincide. */
  lemma MuSAtLeastReduced(pow: PowFn, wl: real, aScatter: real, bScatter: real, g: real)
    requires PowerLaw(pow) && wl > 0.0 && aScatter >= 0.0
    requires 0.0 <= g && 1.0 - g > AnisotropyGuard
    ensures GetLayerMuS(pow, wl, aScatter, bScatter, g) >= MuSPrime(pow, wl, aScatter, bScatter)
    ensures g == 0.0 ==> GetLayerMuS(pow, wl, aScatter, bScatter, g) == MuSPrime(pow, wl, aScatter, bScatter)
  {
    var m := MuSPrime(pow, wl, aScatter, bScatter);
    var r := GetLayerMuS(pow, wl, aScatter, bScatter, g);
    MuSPrimeNonNegative(pow, wl, aScatter, bScatter);
    assert r * (1.0 - g) == m;
    assert r >= 0.0;
    assert r * (1.0 - g) <= r;
  }
}
