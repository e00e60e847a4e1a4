/** Assembly of the layer stack handed to the transport simulator: the healthy
    seven-layer skin model and the hemangioma variant derived from it. */
module SkinModels {
  import opened Constants
  import opened OpticalProperties

  /** A layer's geometric thickness in mm; the ambient media are unbounded. */
  datatype Thickness = Finite(mm: real) | Infinite

  /** The Henyey-Greenstein phase function, fixed by its anisotropy `g`. */
  datatype PhaseFunction = Hg(g: real)

  /** One simulator layer: refractive index, thickness, absorption and
      scattering coefficients (1/mm) and phase function. */
  datatype Layer = Layer(n: real, d: Thickness, mua: real, mus: real, pf: PhaseFunction)

  /** Oxygen saturation assumed for every healthy layer. */
  const BaselineSO2: real := 0.7

  /** The semi-infinite, non-absorbing, non-scattering air above and below the
      skin. */
  const AmbientLayer: Layer := Layer(1.0, Infinite, 0.0, 0.0, Hg(0.0))

  // ---------------------------------------------------------------------------
  // Case-sensitive substring test
  // ---------------------------------------------------------------------------

  predicate OccursAt(s: string, sub: string, i: int) {
    0 <= i <= |s| - |sub| && s[i..i + |sub|] == sub
  }

  /** Python's `sub in s` on strings: `sub` occurs somewhere in `s`. */
  function Contains(s: string, sub: string): (r: bool)
    ensures r <==> exists i :: OccursAt(s, sub, i)
  {
    if sub <= s then
      assert OccursAt(s, sub, 0);
      true
    else if |s| == 0 then
      false
    else
      ContainsStep(s, sub);
      Contains(s[1..], sub)
  }

  /** Without a match at the front, a match in `s` is a match in its tail. */
  lemma ContainsStep(s: string, sub: string)
    requires |s| > 0 && !(sub <= s)
    ensures (exists i :: OccursAt(s, sub, i)) <==> (exists i :: OccursAt(s[1..], sub, i))
  {
    if exists i :: OccursAt(s, sub, i) {
      assert !OccursAt(s, sub, 0);
      var i :| OccursAt(s, sub, i);
      assert s[1..][i - 1..i - 1 + |sub|] == s[i..i + |sub|];
      assert OccursAt(s[1..], sub, i - 1);
    }
    if exists i :: OccursAt(s[1..], sub, i) {
      var i :| OccursAt(s[1..], sub, i);
      assert s[1..][i..i + |sub|] == s[i + 1..i + 1 + |sub|];
      assert OccursAt(s, sub, i + 1);
    }
  }

  /** A string that lacks the first character of `sub` cannot contain it. */
  lemma MissingFirstChar(s: string, sub: string)
    requires |sub| > 0 && sub[0] !in s
    ensures !Contains(s, sub)
  {
    forall i ensures !OccursAt(s, sub, i) {
      if 0 <= i <= |s| - |sub| {
        assert s[i..i + |sub|][0] == s[i];
      }
    }
  }

  // ---------------------------------------------------------------------------
  // The pathology rule
  // ---------------------------------------------------------------------------

  /** The name fragment that marks a layer as dermal. */
  const DermisMarker: string := "Dermis"

  /** The lesion affects exactly the layers whose name contains "Dermis". */
  function IsDermis(p: LayerParams): bool {
    Contains(p.name, DermisMarker)
  }

  /** The hemangioma copy of one layer: more blood in the dermis, nothing else
      changed. */
  function Perturbed(p: LayerParams): LayerParams {
    if IsDermis(p) then p.(cBlood := p.cBlood * Hemangioma.bloodMultiplier) else p
  }

  /** The saturation the hemangioma model assembles a layer with. */
  function HemangiomaSO2(p: LayerParams): real {
    if IsDermis(p) then BaselineSO2 + Hemangioma.sO2Increase else BaselineSO2
  }

  /** Exactly Papillary, Reticular 1, Reticular 2 and Deep Dermis match; the
      "d" of "Epidermis" is lower case. */
  lemma DermisLayers()
    ensures forall i :: 0 <= i < |LayerCatalog| ==> (IsDermis(LayerCatalog[i]) <==> 2 <= i <= 5)
  {
    DermisNames();
    forall i | 0 <= i < |LayerCatalog|
      ensures IsDermis(LayerCatalog[i]) <==> 2 <= i <= 5
    {
      assert i == 0 || i == 1 || i == 2 || i == 3 || i == 4 || i == 5 || i == 6;
    }
  }

  lemma DermisNames()
    ensures !IsDermis(LayerCatalog[0]) && !IsDermis(LayerCatalog[1]) && !IsDermis(LayerCatalog[6])
    ensures IsDermis(LayerCatalog[2]) && IsDermis(LayerCatalog[3])
    ensures IsDermis(LayerCatalog[4]) && IsDermis(LayerCatalog[5])
  {
    CatalogNames();
    DermalNames();
    StratumCorneumNotDermal();
    EpidermisNotDermal();
    SubcutaneousFatNotDermal();
  }

  lemma StratumCorneumNotDermal()
    ensures !Contains("Stratum Corneum", DermisMarker)
  {
    MissingFirstChar("Stratum Corneum", DermisMarker);
  }

  lemma EpidermisNotDermal()
    ensures !Contains("Epidermis", DermisMarker)
  {
    MissingFirstChar("Epidermis", DermisMarker);
  }

  lemma SubcutaneousFatNotDermal()
    ensures !Contains("Subcutaneous Fat", DermisMarker)
  {
    MissingFirstChar("Subcutaneous Fat", DermisMarker);
  }

  lemma CatalogNames()
    ensures LayerCatalog[0].name == "Stratum Corneum" && LayerCatalog[1].name == "Epidermis"
    ensures LayerCatalog[2].name == "Papillary Dermis" && LayerCatalog[3].name == "Reticular Dermis 1"
    ensures LayerCatalog[4].name == "Reticular Dermis 2" && LayerCatalog[5].name == "Deep Dermis"
    ensures LayerCatalog[6].name == "Subcutaneous Fat"
  {
  }

  lemma DermalNames()
    ensures Contains("Papillary Dermis", DermisMarker) && Contains("Deep Dermis", DermisMarker)
    ensures Contains("Reticular Dermis 1", DermisMarker) && Contains("Reticular Dermis 2", DermisMarker)
  {
    assert "Papillary Dermis" == "Papillary " + DermisMarker;
    assert OccursAt("Papillary Dermis", DermisMarker, 10);
    assert "Deep Dermis" == "Deep " + DermisMarker;
    assert OccursAt("Deep Dermis", DermisMarker, 5);
    assert "Reticular Dermis 1" == "Reticular " + DermisMarker + " 1";
    assert OccursAt("Reticular Dermis 1", DermisMarker, 10);
    assert "Reticular Dermis 2" == "Reticular " + DermisMarker + " 2";
    assert OccursAt("Reticular Dermis 2", DermisMarker, 10);
  }

  // ---------------------------------------------------------------------------
  // Specification of the two stacks
  // ---------------------------------------------------------------------------

  /** One tissue layer assembled at wavelength `wl` and saturation `sO2`, with
      no melanin. */
  function TissueLayer(pow: PowFn, wl: real, p: LayerParams, sO2: real): Layer {
    Layer(p.n, Finite(p.d),
          GetLayerMuA(pow, wl, p.cBlood, p.cWater, 0.0, sO2),
          GetLayerMuS(pow, wl, p.aScatter, p.bScatter, p.g),
          Hg(p.g))
  }

  ghost function NormalStack(pow: PowFn, wl: real): seq<Layer> {
    [AmbientLayer]
    + seq(|LayerCatalog|, i requires 0 <= i < |LayerCatalog| =>
            TissueLayer(pow, wl, LayerCatalog[i], BaselineSO2))
    + [AmbientLayer]
  }

  /** The lesion's copy of a catalog, entry by entry. */
  ghost function LesionParams(catalog: seq<LayerParams>): seq<LayerParams> {
    seq(|catalog|, i requires 0 <= i < |catalog| => Perturbed(catalog[i]))
  }

  /** The lesion's tissue layers built from (already perturbed) parameters. */
  ghost function LesionTissue(pow: PowFn, wl: real, params: seq<LayerParams>): seq<Layer> {
    seq(|params|, i requires 0 <= i < |params| => TissueLayer(pow, wl, params[i], HemangiomaSO2(params[i])))
  }

  ghost function HemangiomaCatalog(): seq<LayerParams> {
    LesionParams(LayerCatalog)
  }

  ghost function HemangiomaStack(pow: PowFn, wl: real): seq<Layer> {
    [AmbientLayer] + LesionTissue(pow, wl, HemangiomaCatalog()) + [AmbientLayer]
  }

  // ---------------------------------------------------------------------------
  // The builders
  // ---------------------------------------------------------------------------

  /** `create_normal_skin_model`: ambient, the catalog's layers in order at the
      baseline saturation, ambient. */
  method CreateNormalSkinModel(pow: PowFn, wl: real) returns (layers: seq<Layer>)
    ensures layers == NormalStack(pow, wl)
  {
    layers := [AmbientLayer];
    for i := 0 to |LayerCatalog|
      invariant |layers| == i + 1 && layers[0] == AmbientLayer
      invariant forall j :: 0 <= j < i ==>
                  layers[j + 1] == TissueLayer(pow, wl, LayerCatalog[j], BaselineSO2)
    {
      var params := LayerCatalog[i];
      var muA := GetLayerMuA(pow, wl, params.cBlood, params.cWater, 0.0, BaselineSO2);
      var muS := GetLayerMuS(pow, wl, params.aScatter, params.bScatter, params.g);
      layers := layers + [Layer(params.n, Finite(params.d), muA, muS, Hg(params.g))];
    }
    layers := layers + [AmbientLayer];
  }

  /** `create_hemangioma_model`: copy the catalog entry by entry, raise the
      blood fraction of the dermal copies in place, then assemble the copies. */
  method CreateHemangiomaModel(pow: PowFn, wl: real) returns (layers: seq<Layer>)
    ensures layers == HemangiomaStack(pow, wl)
  {
    var copies := new LayerParams[|LayerCatalog|](i requires 0 <= i < |LayerCatalog| => LayerCatalog[i]);
    assert copies[..] == LayerCatalog;
    RaiseDermalBlood(copies);
    layers := AssembleLesion(pow, wl, copies[..]);
  }

  /** The modification pass: every dermal entry's blood fraction is multiplied
      by the lesion's blood multiplier, in place; other entries are untouched. */
  method RaiseDermalBlood(copies: array<LayerParams>)
    modifies copies
    ensures copies[..] == LesionParams(old(copies[..]))
  {
    for i := 0 to copies.Length
      invariant forall j :: 0 <= j < i ==> copies[j] == Perturbed(old(copies[j]))
      invariant forall j :: i <= j < copies.Length ==> copies[j] == old(copies[j])
    {
      if Contains(copies[i].name, DermisMarker) {
        copies[i] := copies[i].(cBlood := copies[i].cBlood * Hemangioma.bloodMultiplier);
      }
    }
  }

  /** The assembly pass of the lesion model: ambient, one layer per entry in
      order, dermal entries at the raised saturation, ambient. */
  method AssembleLesion(pow: PowFn, wl: real, params: seq<LayerParams>) returns (layers: seq<Layer>)
    ensures |layers| == |params| + 2
    ensures layers[0] == AmbientLayer && layers[|params| + 1] == AmbientLayer
    ensures layers[1..|params| + 1] == LesionTissue(pow, wl, params)
  {
    layers := [AmbientLayer];
    for i := 0 to |params|
      invariant |layers| == i + 1 && layers[0] == AmbientLayer
      invariant forall j :: 0 <= j < i ==>
                  layers[j + 1] == TissueLayer(pow, wl, params[j], HemangiomaSO2(params[j]))
    {
      var p := params[i];
      var sO2 := if Contains(p.name, DermisMarker) then BaselineSO2 + Hemangioma.sO2Increase else BaselineSO2;
      var muA := GetLayerMuA(pow, wl, p.cBlood, p.cWater, 0.0, sO2);
      var muS := GetLayerMuS(pow, wl, p.aScatter, p.bScatter, p.g);
      layers := layers + [Layer(p.n, Finite(p.d), muA, muS, Hg(p.g))];
    }
    layers := layers + [AmbientLayer];
  }

  /** Building the lesion model in between leaves the healthy model as it
      was: the baseline catalog is never written. */
  method HealthyAfterLesion(pow: PowFn, wl: real) returns (before: seq<Layer>, lesion: seq<Layer>, after: seq<Layer>)
    ensures before == after
    ensures lesion == HemangiomaStack(pow, wl)
  {
    before := CreateNormalSkinModel(pow, wl);
    lesion := CreateHemangiomaModel(pow, wl);
    after := CreateNormalSkinModel(pow, wl);
  }

  // ---------------------------------------------------------------------------
  // Properties of the two stacks
  // ---------------------------------------------------------------------------

  /** The healthy stack: nine layers, ambient at both ends, and in between the
      catalog in order, each with its own index, thickness and anisotropy and
      the absorption of its own blood and water at saturation 0.7. */
  lemma NormalStackShape(pow: PowFn, wl: real)
    ensures |NormalStack(pow, wl)| == |LayerCatalog| + 2 == 9
    ensures NormalStack(pow, wl)[0] == AmbientLayer == NormalStack(pow, wl)[8]
    ensures AmbientLayer.n == 1.0 && AmbientLayer.d == Infinite
    ensures AmbientLayer.mua == 0.0 && AmbientLayer.mus == 0.0 && AmbientLayer.pf == Hg(0.0)
    ensures forall i :: 0 <= i < |LayerCatalog| ==>
              var l, p := NormalStack(pow, wl)[i + 1], LayerCatalog[i];
              l.n == p.n && l.d == Finite(p.d) && l.pf == Hg(p.g) &&
              l.mua == GetLayerMuA(pow, wl, p.cBlood, p.cWater, 0.0, 0.7) &&
              l.mus == GetLayerMuS(pow, wl, p.aScatter, p.bScatter, p.g)
  {
    var stack := NormalStack(pow, wl);
    forall i | 0 <= i < |LayerCatalog|
      ensures stack[i + 1] == TissueLayer(pow, wl, LayerCatalog[i], BaselineSO2)
    {
    }
  }

  /** The lesion catalog differs from the baseline only in the blood fraction
      of the dermal layers, which is five times the baseline's. */
  lemma HemangiomaCatalogLaw()
    ensures |HemangiomaCatalog()| == |LayerCatalog|
    ensures forall i :: 0 <= i < |LayerCatalog| ==>
              HemangiomaCatalog()[i] == LayerCatalog[i].(cBlood := HemangiomaCatalog()[i].cBlood)
    ensures forall i :: 0 <= i < |LayerCatalog| ==>
              HemangiomaCatalog()[i].cBlood ==
                if 2 <= i <= 5 then 5.0 * LayerCatalog[i].cBlood else LayerCatalog[i].cBlood
  {
    DermisLayers();
  }

  /** The two stacks agree in length, ambient layers, and every layer's index,
      thickness, phase function and scattering; a non-dermal layer is
      identical in both, and a dermal one absorbs with five times the blood at
      saturation 0.75. */
  lemma StacksAgree(pow: PowFn, wl: real)
    ensures |HemangiomaStack(pow, wl)| == |NormalStack(pow, wl)|
    ensures HemangiomaStack(pow, wl)[0] == AmbientLayer == HemangiomaStack(pow, wl)[8]
    ensures forall i :: 0 <= i < |NormalStack(pow, wl)| ==>
              var h, l := HemangiomaStack(pow, wl)[i], NormalStack(pow, wl)[i];
              h.n == l.n && h.d == l.d && h.pf == l.pf && h.mus == l.mus
    ensures forall i :: 0 <= i < |LayerCatalog| && !IsDermis(LayerCatalog[i]) ==>
              HemangiomaStack(pow, wl)[i + 1] == NormalStack(pow, wl)[i + 1]
    ensures forall i :: 0 <= i < |LayerCatalog| && IsDermis(LayerCatalog[i]) ==>
              var p := LayerCatalog[i];
              HemangiomaStack(pow, wl)[i + 1].mua == GetLayerMuA(pow, wl, 5.0 * p.cBlood, p.cWater, 0.0, 0.75)
  {
    DermisLayers();
    HemangiomaCatalogLaw();
    NormalStackShape(pow, wl);
    var hs, ns, hc := HemangiomaStack(pow, wl), NormalStack(pow, wl), HemangiomaCatalog();
    forall i | 0 <= i < |LayerCatalog|
      ensures hs[i + 1] == TissueLayer(pow, wl, hc[i], HemangiomaSO2(hc[i]))
      ensures IsDermis(hc[i]) == IsDermis(LayerCatalog[i])
    {
      assert hc[i].name == LayerCatalog[i].name;
    }
  }

  /** In the lesion model, Reticular Dermis 1 is assembled at saturation 0.75
      with 0.15 blood, Stratum Corneum at 0.7 with none. */
  lemma LesionSaturations(pow: PowFn, wl: real)
    ensures HemangiomaStack(pow, wl)[4].mua == GetLayerMuA(pow, wl, 0.15, 0.3, 0.0, 0.75)
    ensures HemangiomaStack(pow, wl)[1].mua == GetLayerMuA(pow, wl, 0.0, 0.05, 0.0, 0.7)
  {
    StacksAgree(pow, wl);
    NormalStackShape(pow, wl);
    DermisNames();
    assert LayerCatalog[3].cBlood == 0.03 && LayerCatalog[3].cWater == 0.3;
    assert LayerCatalog[0].cBlood == 0.0 && LayerCatalog[0].cWater == 0.05;
  }

  /** The tabulated extinctions at 630 nm. */
  lemma HbAt630() ensures EpsHb(630.0) == 2.8 {
    HbCurveFacts();
    EvalAtSample(HbCurve, 5);
  }

  lemma HbO2At630() ensures EpsHbO2(630.0) == 0.7 {
    HbO2CurveFacts();
    EvalAtSample(HbO2Curve, 5);
  }

  lemma WaterAt630() ensures EpsWater(630.0) == 0.003 {
    WaterCurveFacts();
    EvalAtSample(WaterCurve, 3);
  }

  /** At 630 nm the healthy Papillary Dermis absorbs
      `0.05 * (0.7 * 0.7 + 0.3 * 2.8) + 0.2 * 0.003 + 7.84e7 * 630^-3.255` and
      scatters `1.5 * (630 / 500)^-0.7 / (1 - 0.8)`. */
  lemma PapillaryDermisAt630(pow: PowFn)
    ensures NormalStack(pow, 630.0)[3].mua ==
              0.05 * (0.7 * 0.7 + 0.3 * 2.8) + 0.2 * 0.003 + 78400000.0 * pow(630.0, -3.255)
    ensures NormalStack(pow, 630.0)[3].mus == 1.5 * pow(630.0 / 500.0, -0.7) / (1.0 - 0.8)
  {
    HbAt630();
    HbO2At630();
    WaterAt630();
    NormalStackShape(pow, 630.0);
    var p := LayerCatalog[2];
    assert p.cBlood == 0.05 && p.cWater == 0.2 && p.g == 0.8 && p.aScatter == 1.5 && p.bScatter == 0.7;
  }
}
