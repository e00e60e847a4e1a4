# Seven-layer skin optics model in Dafny

This project models how the light-in-skin animation derives the optical input of its
Monte Carlo simulation. Stratum corneum, epidermis, papillary dermis, two reticular
dermis layers, deep dermis and subcutaneous fat are each described by a thickness,
a refractive index, blood and water volume fractions, an anisotropy factor and
reduced-scattering parameters. At a chosen wavelength these become absorption and
scattering coefficients. The coefficients are stacked between two semi-infinite
ambient layers, either as healthy skin or as a hemangioma, which raises blood in
the dermis.

The three modules follow the three source files:

- `Constants` (`constants.dfy`) holds the four chromophore extinction tables
  (deoxyhaemoglobin, oxyhaemoglobin, water, melanin). It also holds
  `create_interp_func`, modelled as `CreateInterp`, which sorts the table keys,
  pairs each key with its value, and refuses tables with fewer than two entries.
  The piecewise-linear interpolant with linear extrapolation is `Eval`. The
  module also holds the seven-entry layer catalog and the two hemangioma
  constants.
- `OpticalProperties` (`optical_properties.dfy`) holds `get_layer_mu_a`
  (`GetLayerMuA`): blood, water and melanin terms plus a power-law background.
  It also holds `get_layer_mu_s` (`GetLayerMuS`): power-law reduced scattering,
  divided by `1 - g` only when `1 - g` exceeds `1e-6`. The non-integer powers
  `wl^-3.255` and `(wl/500)^-b` come from a power function `pow` passed as a
  parameter. Where a lemma needs it, `PowerLaw(pow)` states that positive bases
  give positive powers and that `pow(1, e) == 1`.
- `SkinModels` (`skin_models.dfy`) is written imperatively, like the source.
  `CreateNormalSkinModel` grows the layer list in a loop.
  `CreateHemangiomaModel` copies the catalog into a fresh array and raises the
  blood fraction of every layer whose name contains `"Dermis"`, in place on that
  array (`RaiseDermalBlood`). It then assembles the copies in a second loop
  (`AssembleLesion`), using saturation 0.75 for dermal layers and 0.7 for the
  others. Both builders are proved equal to the specification functions
  `NormalStack` and `HemangiomaStack`, and the lemmas below are stated about
  those functions.

## Model

| member | source | states |
|---|---|---|
| Constants.SortedKeys | constants.py:57 | the result is strictly ascending, holds exactly the keys of the table, and has one entry per key |
| Constants.SortedUnique | constants.py:57 | two strictly ascending sequences with the same elements are equal, so the sorted key order is unique |
| Constants.CreateInterp | constants.py:56-59 | succeeds exactly when the table has at least two entries. Otherwise it returns `TooFewSamples` with the entry count. On success the samples are strictly ascending by wavelength, one per key, each key paired with its own value, and every key is present |
| Constants.CreateInterpOfKeys | constants.py:56-58 | knowing the ascending order of a table's keys determines the result: `CreateInterp` returns those keys, in that order, each paired with its value |
| Constants.Line | constants.py:59 | the straight line through two samples of distinct wavelength. It has no `ensures` of its own. `LineThroughEnds` states that it passes through both samples, and `LineBlend` that on the segment it is their weighted blend and lies between them |
| Constants.Eval | constants.py:59 | the linear interpolant with extrapolation, as `interp1d(..., kind="linear", fill_value="extrapolate")` evaluates it. It has no `ensures` of its own. `EvalAtSample` (exact at samples), `EvalOnSegment` (follows segment `k` on `(w_k, w_k+1]`), `EvalBelow` and `EvalAbove` (extrapolate along the boundary segments) state its behaviour on every region |
| Constants.LineBlend | constants.py:59 | the interpolation line is the weighted blend of the two end values and lies between them on the segment |
| Constants.EvalAtSample | constants.py:59 | at a sampled wavelength the interpolant returns the stored value exactly |
| Constants.EvalOnSegment | constants.py:59 | on `(w_k, w_k+1]` the interpolant follows the line through samples `k` and `k+1` |
| Constants.EvalBetweenSamples | constants.py:59 | strictly between two adjacent samples the interpolant equals their linear blend and lies between their values |
| Constants.EvalBelow | constants.py:59 | below the first sample the interpolant extrapolates along the first segment |
| Constants.EvalAbove | constants.py:59 | above the last sample the interpolant extrapolates along the last segment |
| Constants.EvalPositiveInside | constants.py:59 | with all stored values positive, the interpolant is positive everywhere inside the sampled range |
| Constants.HbData | constants.py:8-19 | `extinction_coefficients["hb"]`, wavelength to deoxyhaemoglobin extinction. A constant with no `ensures` of its own. `TableKeys` states its key set, `HbTable` that it has 10 entries and that `CreateInterp` builds `HbCurve` from it, and `HbPositive` that every value is positive |
| Constants.HbO2Data | constants.py:20-31 | `extinction_coefficients["hbo2"]`. A constant with no `ensures` of its own. `TableKeys` states its key set, `HbO2Table` that it has 10 entries and that `CreateInterp` builds `HbO2Curve` from it, and `HbO2Positive` that every value is positive |
| Constants.WaterData | constants.py:32-41 | `extinction_coefficients["water"]`. A constant with no `ensures` of its own. `TableKeys` states its key set, `WaterTable` that it has 8 entries and that `CreateInterp` builds `WaterCurve` from it, and `WaterPositive` that every value is positive |
| Constants.MelaninData | constants.py:42-51 | `extinction_coefficients["melanin"]`. A constant with no `ensures` of its own. `TableKeys` states its key set, `MelaninTable` that it has 8 entries and that `CreateInterp` builds `MelaninCurve` from it, and `MelaninPositive` that every value is positive |
| Constants.HbTable | constants.py:8-19 | the deoxyhaemoglobin table has 10 distinct wavelengths and `CreateInterp` builds exactly `HbCurve` from it |
| Constants.HbO2Table | constants.py:20-31 | the oxyhaemoglobin table has 10 distinct wavelengths and `CreateInterp` builds exactly `HbO2Curve` from it |
| Constants.WaterTable | constants.py:32-41 | the water table has 8 distinct wavelengths and `CreateInterp` builds exactly `WaterCurve` from it |
| Constants.MelaninTable | constants.py:42-51 | the melanin table has 8 distinct wavelengths and `CreateInterp` builds exactly `MelaninCurve` from it |
| Constants.HbCurveFacts | constants.py:8-19 | the deoxyhaemoglobin curve is strictly ascending and has 10 samples |
| Constants.HbO2CurveFacts | constants.py:20-31 | the oxyhaemoglobin curve is strictly ascending and has 10 samples |
| Constants.WaterCurveFacts | constants.py:32-41 | the water curve is strictly ascending and has 8 samples |
| Constants.MelaninCurveFacts | constants.py:42-51 | the melanin curve is strictly ascending and has 8 samples |
| Constants.EpsHb | constants.py:62 | `eps_hb`: the interpolant of the deoxyhaemoglobin table. It has no `ensures` of its own. `HbTable` states that its curve is what `CreateInterp` builds from the table, `HbAt630` that it returns a stored sample, `ExtinctionsPositiveInside` that it is positive on [470, 880] nm, and `HbExtrapolatesNegative` that it turns negative beyond 880 nm |
| Constants.EpsHbO2 | constants.py:63 | `eps_hbo2`: the interpolant of the oxyhaemoglobin table. It has no `ensures` of its own. `HbO2Table` states that its curve is what `CreateInterp` builds from the table, `HbO2At630` that it returns a stored sample, and `ExtinctionsPositiveInside` that it is positive on [470, 880] nm |
| Constants.EpsWater | constants.py:64 | `eps_water`: the interpolant of the water table. It has no `ensures` of its own. `WaterTable` states that its curve is what `CreateInterp` builds from the table, `WaterAt630` that it returns a stored sample, and `ExtinctionsPositiveInside` that it is positive on [470, 880] nm |
| Constants.EpsMelanin | constants.py:65 | `eps_melanin`: the interpolant of the melanin table. It has no `ensures` of its own. `MelaninTable` states that its curve is what `CreateInterp` builds from the table, and `ExtinctionsPositiveInside` that it is positive on [470, 880] nm |
| Constants.ExtinctionsPositiveInside | constants.py:7-52 | inside [470, 880] nm all four interpolated extinctions are positive |
| Constants.HbExtrapolatesNegative | constants.py:17-18 | extrapolation past 880 nm along deoxyhaemoglobin's falling last segment gives a negative extinction at 1200 nm |
| Constants.CatalogWellFormed | constants.py:69-140 | the catalog has 7 entries, each with `d > 0`, `n > 0`, blood and water fractions in [0, 1], `g < 1 - 1e-6` and positive scattering parameters |
| Constants.LayerCatalog | constants.py:69-140 | `layer_params`, the seven layers in order from the surface down. A constant with no `ensures` of its own. `CatalogWellFormed` states its size and bounds, `DermisLayers` which entries are dermal, and `HemangiomaCatalogLaw` how the lesion copy differs from it |
| Constants.Hemangioma | constants.py:144 | `hemangioma_params`: blood multiplier 5.0 and saturation increase 0.05. A constant with no `ensures` of its own. `HemangiomaCatalogLaw` states the multiplier's effect, and `StacksAgree` and `LesionSaturations` the resulting saturation of 0.75 |
| OpticalProperties.BloodMuA | optical_properties.py:10-12 | the blood term is pure oxyhaemoglobin absorption at saturation 1 and pure deoxyhaemoglobin absorption at saturation 0 |
| OpticalProperties.MixedHb | optical_properties.py:11 | the haemoglobin extinction at a saturation, as a linear mix of the oxy- and deoxy- extinctions. It has no `ensures` of its own. `MixedHbBetween` states that it lies between the two for saturations in [0, 1], and `BloodMuA` states its pure endpoints |
| OpticalProperties.BackgroundMuA | optical_properties.py:21 | the background term is positive at every positive wavelength |
| OpticalProperties.GetLayerMuA | optical_properties.py:6-25 | `get_layer_mu_a`. It has no `ensures` of its own. `MuANoChromophores` states that with no chromophores only the background remains, `MuAPositive` and `MuAPositiveInside` that it is positive for physical inputs, and `MuAAffineInBlood` that it is affine in the blood fraction with slope `MixedHb` |
| OpticalProperties.MixedHbBetween | optical_properties.py:11 | for a saturation in [0, 1] the mixed haemoglobin extinction lies between the two pure extinctions |
| OpticalProperties.MuANoChromophores | optical_properties.py:21-24 | with no blood, water or melanin, the absorption is the background term alone |
| OpticalProperties.MuAPositive | optical_properties.py:10-24 | non-negative concentrations, a saturation in [0, 1], non-negative extinctions and a positive wavelength give a positive absorption |
| OpticalProperties.MuAPositiveInside | optical_properties.py:10-24 | inside [470, 880] nm, physical concentrations and saturations give a positive absorption |
| OpticalProperties.MuAAffineInBlood | optical_properties.py:10-24 | absorption is affine in the blood fraction with slope the mixed haemoglobin extinction, so it is non-decreasing in blood when that slope is non-negative |
| OpticalProperties.MuSPrime | optical_properties.py:31 | the reduced scattering `a * (wl/500)^-b`. It has no `ensures` of its own. `MuSPrimeAtReference` states that it equals `a_scatter` at 500 nm, and `MuSPrimeNonNegative` that it is non-negative for a non-negative amplitude |
| OpticalProperties.GetLayerMuS | optical_properties.py:34 | above the guard, `mu_s * (1 - g)` is the reduced scattering. At or below the guard, `mu_s` is the reduced scattering undivided |
| OpticalProperties.MuSPrimeAtReference | optical_properties.py:31 | at 500 nm the reduced scattering equals `a_scatter` |
| OpticalProperties.MuSNonNegativeAndBounded | optical_properties.py:31-34 | `mu_s` is non-negative for non-negative `a_scatter` and any `g`, and never exceeds the reduced scattering divided by the guard |
| OpticalProperties.MuSAtLeastReduced | optical_properties.py:31-34 | for `0 <= g` with `1 - g` above the guard, `mu_s` is at least the reduced scattering, and equal to it when `g = 0` |
| SkinModels.Contains | skin_models.py:55 | `sub in s` holds exactly when `sub` occurs at some position of `s` |
| SkinModels.MissingFirstChar | skin_models.py:55 | a string that lacks the first character of `sub` does not contain `sub` |
| SkinModels.IsDermis | skin_models.py:55 | the test `"Dermis" in params["name"]`, shared by both hemangioma loops. It has no `ensures` of its own. `Contains` states what the substring test means, and `DermisLayers` which catalog entries pass it |
| SkinModels.Perturbed | skin_models.py:55-56 | the hemangioma copy of one entry. It has no `ensures` of its own. `RaiseDermalBlood` states that the in-place pass applies it to every entry, and `HemangiomaCatalogLaw` that it multiplies blood by 5 exactly on the dermal entries and changes nothing else |
| SkinModels.HemangiomaSO2 | skin_models.py:65-69 | the saturation a hemangioma layer is assembled with. It has no `ensures` of its own. `AssembleLesion` uses it per entry, and `StacksAgree` and `LesionSaturations` state that it is 0.75 on dermal layers and 0.7 elsewhere |
| SkinModels.TissueLayer | skin_models.py:19-33 | one simulator layer built from an entry at a wavelength and saturation, with no melanin. It has no `ensures` of its own. `NormalStackShape` and `StacksAgree` state its fields |
| SkinModels.DermisLayers | constants.py:71-131 | exactly catalog entries 2 to 5 (Papillary, Reticular 1, Reticular 2, Deep Dermis) contain "Dermis". "Epidermis" does not match, because its "d" is lower case |
| SkinModels.AmbientLayer | skin_models.py:15 | the air layer that opens and closes both stacks: `n = 1`, infinite thickness, no absorption or scattering, `Hg(0)`. A constant with no `ensures` of its own. `NormalStackShape` states its fields and its place at both ends, and `StacksAgree` its place in the lesion stack |
| SkinModels.NormalStack | skin_models.py:10-40 | the specification of the healthy stack: ambient, one `TissueLayer` per catalog entry at saturation 0.7, ambient. It has no `ensures` of its own. `CreateNormalSkinModel` is proved equal to it, and `NormalStackShape` states its shape |
| SkinModels.LesionParams | skin_models.py:50-56 | the specification of the modification pass: each entry of a catalog replaced by `Perturbed` of it. It has no `ensures` of its own. `RaiseDermalBlood` is proved to produce it in place, and `HemangiomaCatalogLaw` states its effect on the catalog |
| SkinModels.HemangiomaStack | skin_models.py:43-92 | the specification of the lesion stack: ambient, one layer per perturbed entry at `HemangiomaSO2`, ambient. It has no `ensures` of its own. `CreateHemangiomaModel` is proved equal to it, and `StacksAgree` relates it to `NormalStack` |
| SkinModels.CreateNormalSkinModel | skin_models.py:10-40 | the loop-built list is the healthy stack: ambient, one tissue layer per catalog entry in order at saturation 0.7 with no melanin, ambient |
| SkinModels.NormalStackShape | skin_models.py:15-38 | the healthy stack has 9 layers with ambient first and last (`n = 1`, infinite thickness, no absorption or scattering, `g = 0`). Layer `i+1` carries entry `i`'s `n`, `d` and `g`, absorbs at `(C_blood, C_water, 0, 0.7)` and scatters with entry `i`'s parameters |
| SkinModels.CreateHemangiomaModel | skin_models.py:43-92 | copying the catalog into a fresh array, raising the dermal copies in place and assembling them yields exactly the hemangioma stack |
| SkinModels.RaiseDermalBlood | skin_models.py:53-56 | afterwards every entry of the array is its old value, with the blood fraction multiplied by 5 where the name contains "Dermis" |
| SkinModels.AssembleLesion | skin_models.py:58-90 | the loop-built list is ambient, then one layer per entry in order with dermal entries at saturation 0.75 and the rest at 0.7, then ambient |
| SkinModels.HealthyAfterLesion | skin_models.py:50-56 | building the lesion model between two healthy builds leaves the healthy result unchanged. Each healthy build equals `NormalStack(pow, wl)`, which depends only on `pow` and `wl` because the catalog is an immutable constant |
| SkinModels.HemangiomaCatalogLaw | skin_models.py:50-56 | the lesion copy differs from the catalog only in blood fraction, which is 5 times the baseline for the four dermal entries and unchanged for the rest |
| SkinModels.StacksAgree | skin_models.py:63-90 | the lesion and healthy stacks have the same length and ambient layers, and the same `n`, `d`, phase function and `mu_s` for every layer. Non-dermal layers are identical. Dermal layers absorb with 5 times the blood at saturation 0.75 |
| SkinModels.LesionSaturations | skin_models.py:65-73 | in the lesion stack Reticular Dermis 1 absorbs with blood 0.15 at saturation 0.75, and Stratum Corneum with no blood at saturation 0.7 |
| SkinModels.HbAt630 | constants.py:14 | the deoxyhaemoglobin interpolant returns the stored 2.8 at 630 nm |
| SkinModels.HbO2At630 | constants.py:26 | the oxyhaemoglobin interpolant returns the stored 0.7 at 630 nm |
| SkinModels.WaterAt630 | constants.py:36 | the water interpolant returns the stored 0.003 at 630 nm |
| SkinModels.PapillaryDermisAt630 | skin_models.py:19-24 | at 630 nm the healthy Papillary Dermis absorbs `0.05 * (0.7 * 0.7 + 0.3 * 2.8) + 0.2 * 0.003 + 7.84e7 * pow(630, -3.255)` and scatters `1.5 * pow(630/500, -0.7) / (1 - 0.8)`, with `pow` left symbolic |

## Left out

- The xopto `Layer`, `Layers` and `Hg` classes are foreign simulator types. A layer is the record `Layer(n, d, mua, mus, pf)` with phase function `Hg(g)`, and `Layers` is the returned sequence.
- scipy's `interp1d` is an external library and is not modelled. Its documented linear mode with `fill_value="extrapolate"` is re-expressed as `Eval`: the segment is found by a left-to-right search and clamped to the first and last segments. Its `ValueError` for fewer than two points becomes `Err(TooFewSamples(n))`. Nothing else of scipy or numpy is modelled.
- Floating point is not modelled: every quantity is a Dafny `real`, so `0.7 + 0.05` is exactly `0.75` and no rounding occurs.
- Non-integer powers are not computed. They come from the `pow` parameter, and only `PowerLaw`'s two facts are assumed about it, and only where a lemma asks for them.
- The error path for a wavelength that is not positive is not modelled. In the source, `0 ** -3.255` and `(0 / 500.0) ** (-b)` raise `ZeroDivisionError`, and a negative base gives a complex number. `GetLayerMuA` and `GetLayerMuS` instead return whatever `pow` yields. Every lemma that depends on the power requires `wl > 0`, and only positive wavelengths are meaningful inputs.
- The thickness `np.inf` of the ambient layers is the `Infinite` variant of `Thickness`, not a number.
- Table keys are Python integers (`470`) and are modelled as reals (`470.0`). The interpolant works on them as numbers either way.
- The four extinction functions `EpsHb`, `EpsHbO2`, `EpsWater` and `EpsMelanin` evaluate the curve constants. They are not defined by unwrapping `CreateInterp(...)` at each call. The `HbTable`-style lemmas prove that those constants are exactly what `CreateInterp` builds from the tables.
- Python dictionaries are mutable and shared by reference, but `layer_params` is modelled as an immutable constant. The baseline therefore stays unchanged by construction. The per-entry `dict(p)` copy is a fresh array of catalog values that `RaiseDermalBlood` mutates in place. Aliasing between dictionaries is not modelled.
- `in` on strings is modelled as a case-sensitive substring test over Dafny strings. There is no Unicode normalisation.
- The physical accuracy of the literature values is not modelled, only their structural properties. Monte Carlo transport, detectors, plotting and entry points are not part of this model.
- OpticalProperties.MuAPositive: assumes non-negative extinctions, because outside [470, 880] nm the extrapolated extinctions can be negative and the absorption with them (see `HbExtrapolatesNegative`). `MuAPositiveInside` discharges the assumption inside the sampled range.
- OpticalProperties.BackgroundMuA: positivity is stated only for a `pow` satisfying `PowerLaw`, since the power itself is not computed.
