/** Chromophore extinction tables, their piecewise-linear interpolant, the
    seven-layer skin catalog and the hemangioma perturbation constants. */
module Constants {

  /** One tabulated point of a spectrum: wavelength in nm, extinction in 1/mm. */
  datatype Sample = Sample(wl: real, val: real)

  /** Building an interpolant needs at least two samples. */
  datatype InterpError = TooFewSamples(count: nat)

  datatype Result<T> = Ok(value: T) | Err(error: InterpError)

  // ---------------------------------------------------------------------------
  // Sorting the wavelengths of a table
  // ---------------------------------------------------------------------------

  ghost predicate StrictlyAscending(s: seq<real>) {
    forall i, j :: 0 <= i < j < |s| ==> s[i] < s[j]
  }

  function Elements(s: seq<real>): set<real> {
    set x | x in s
  }

  /** A non-empty set has an element. */
  lemma NonEmptyHasElement(ws: set<real>)
    requires ws != {}
    ensures exists w :: w in ws
  {
    if forall w :: w !in ws {
      assert false;
    }
  }

  predicate IsLeast(m: real, ws: set<real>) {
    m in ws && forall k :: k in ws ==> m <= k
  }

  lemma {:induction false} LeastExists(ws: set<real>)
    requires ws != {}
    ensures exists m :: IsLeast(m, ws)
    decreases |ws|
  {
    NonEmptyHasElement(ws);
    var x :| x in ws;
    var rest := ws - {x};
    if rest == {} {
      assert ws == {x};
      assert IsLeast(x, ws);
    } else {
      LeastExists(rest);
      var m :| IsLeast(m, rest);
      var least := if x < m then x else m;
      forall k | k in ws ensures least <= k {
        if k != x { assert k in rest; }
      }
      assert IsLeast(least, ws);
    }
  }

  /** The least wavelength of a non-empty key set. */
  function MinKey(ws: set<real>): (m: real)
    requires ws != {}
    ensures IsLeast(m, ws)
  {
    LeastExists(ws);
    var m :| IsLeast(m, ws);
    m
  }

  /** The keys of a table in ascending order, as `sorted(data.keys())`. */
  function SortedKeys(ws: set<real>): (r: seq<real>)
    ensures StrictlyAscending(r)
    ensures Elements(r) == ws
    ensures |r| == |ws|
    decreases |ws|
  {
    if ws == {} then []
    else
      var m := MinKey(ws);
      var rest := SortedKeys(ws - {m});
      PrependLeast(m, ws, rest);
      [m] + rest
  }

  /** The least key followed by the rest in ascending order is the whole key
      set in ascending order. */
  lemma PrependLeast(m: real, ws: set<real>, rest: seq<real>)
    requires IsLeast(m, ws)
    requires StrictlyAscending(rest) && Elements(rest) == ws - {m} && |rest| == |ws - {m}|
    ensures StrictlyAscending([m] + rest)
    ensures Elements([m] + rest) == ws
    ensures |[m] + rest| == |ws|
  {
    forall i | 0 <= i < |rest| ensures m < rest[i] {
      assert rest[i] in Elements(rest);
    }
    LeastThenAscending(m, rest);
    ElementsCons(m, rest);
  }

  lemma ElementsCons(x: real, s: seq<real>)
    ensures Elements([x] + s) == {x} + Elements(s)
  {
    assert forall y :: y in [x] + s <==> y == x || y in s;
  }

  /** Putting a value below every element of an ascending sequence in front
      keeps it ascending. */
  lemma LeastThenAscending(m: real, rest: seq<real>)
    requires StrictlyAscending(rest)
    requires forall i :: 0 <= i < |rest| ==> m < rest[i]
    ensures StrictlyAscending([m] + rest)
  {
    var r := [m] + rest;
    forall i, j | 0 <= i < j < |r| ensures r[i] < r[j] {
      assert r[j] == rest[j - 1];
      if i > 0 {
        assert r[i] == rest[i - 1];
      }
    }
  }

  /** A strictly ascending sequence has no repeated element. */
  lemma {:induction false} ElementsOfAscending(s: seq<real>)
    requires StrictlyAscending(s)
    ensures |Elements(s)| == |s|
  {
    if s != [] {
      ElementsOfAscending(s[1..]);
      AscendingHead(s);
    }
  }

  /** The head of a non-empty ascending sequence is its least element, and
      the tail holds exactly the other elements. */
  lemma AscendingHead(s: seq<real>)
    requires StrictlyAscending(s) && s != []
    ensures IsLeast(s[0], Elements(s))
    ensures Elements(s[1..]) == Elements(s) - {s[0]}
  {
    forall x | x in Elements(s) ensures s[0] <= x {
      var i :| 0 <= i < |s| && s[i] == x;
    }
    assert s == [s[0]] + s[1..];
    ElementsCons(s[0], s[1..]);
    forall i | 0 <= i < |s[1..]| ensures s[1..][i] != s[0] {
      assert s[1..][i] == s[i + 1];
    }
  }

  lemma ElementsEmpty(s: seq<real>)
    ensures Elements(s) == {} <==> s == []
  {
    if s != [] {
      assert s[0] in Elements(s);
    }
  }

  /** Two strictly ascending sequences with the same elements are equal, so
      the sorted order of a key set is unique. */
  lemma {:induction false} SortedUnique(a: seq<real>, b: seq<real>)
    requires StrictlyAscending(a) && StrictlyAscending(b)
    requires Elements(a) == Elements(b)
    ensures a == b
  {
    ElementsEmpty(a);
    ElementsEmpty(b);
    if a != [] {
      assert a[0] in Elements(b);
      AscendingHead(a);
      AscendingHead(b);
      assert a[0] == b[0];
      SortedUnique(a[1..], b[1..]);
      assert a == [a[0]] + a[1..] && b == [b[0]] + b[1..];
    }
  }

  // ---------------------------------------------------------------------------
  // Building and evaluating the interpolant
  // ---------------------------------------------------------------------------

  /** A valid interpolation domain: at least two samples, strictly ascending
      wavelengths. */
  ghost predicate IsCurve(t: seq<Sample>) {
    |t| >= 2 && forall i, j :: 0 <= i < j < |t| ==> t[i].wl < t[j].wl
  }

  /** `create_interp_func`: sort the table by wavelength, pair each wavelength
      with its own value, and refuse a table with fewer than two entries. */
  function CreateInterp(data: map<real, real>): (r: Result<seq<Sample>>)
    ensures r.Ok? <==> |data| >= 2
    ensures r.Err? ==> r.error == TooFewSamples(|data|)
    ensures r.Ok? ==> IsCurve(r.value) && |r.value| == |data|
    ensures r.Ok? ==> forall i :: 0 <= i < |r.value| ==>
                        r.value[i].wl in data && r.value[i].val == data[r.value[i].wl]
    ensures r.Ok? ==> forall w :: w in data ==>
                        exists i :: 0 <= i < |r.value| && r.value[i] == Sample(w, data[w])
  {
    var wavelengths := SortedKeys(data.Keys);
    assert |data| == |data.Keys|;
    if |wavelengths| < 2 then Err(TooFewSamples(|wavelengths|))
    else
      PairedIsCurve(data, wavelengths);
      PairedLookups(data, wavelengths);
      PairedCovers(data, wavelengths);
      Ok(Paired(data, wavelengths))
  }

  /** Each wavelength paired with its own table value. */
  function Paired(data: map<real, real>, ws: seq<real>): (t: seq<Sample>)
    requires Elements(ws) == data.Keys
    ensures |t| == |ws|
    ensures forall i :: 0 <= i < |t| ==> t[i] == Sample(ws[i], data[ws[i]])
  {
    assert forall i :: 0 <= i < |ws| ==> ws[i] in Elements(ws);
    seq(|ws|, i requires 0 <= i < |ws| => Sample(ws[i], data[ws[i]]))
  }

  lemma PairedLookups(data: map<real, real>, ws: seq<real>)
    requires Elements(ws) == data.Keys
    ensures forall i :: 0 <= i < |ws| ==>
              Paired(data, ws)[i].wl in data && Paired(data, ws)[i].val == data[Paired(data, ws)[i].wl]
  {
    forall i | 0 <= i < |ws|
      ensures Paired(data, ws)[i].wl in data && Paired(data, ws)[i].val == data[Paired(data, ws)[i].wl]
    {
      assert ws[i] in Elements(ws);
    }
  }

  lemma PairedCovers(data: map<real, real>, ws: seq<real>)
    requires Elements(ws) == data.Keys
    ensures forall w :: w in data ==>
              exists i :: 0 <= i < |ws| && Paired(data, ws)[i] == Sample(w, data[w])
  {
    var t := Paired(data, ws);
    forall w | w in data ensures exists i :: 0 <= i < |ws| && t[i] == Sample(w, data[w]) {
      assert w in Elements(ws);
      var i :| 0 <= i < |ws| && ws[i] == w;
      assert t[i] == Sample(w, data[w]);
    }
  }

  /** Pairing the keys of `data` in a strictly ascending order gives a
      curve. */
  lemma PairedIsCurve(data: map<real, real>, ws: seq<real>)
    requires Elements(ws) == data.Keys && StrictlyAscending(ws) && |ws| >= 2
    ensures IsCurve(Paired(data, ws))
  {
    var t := Paired(data, ws);
    forall i, j | 0 <= i < j < |t| ensures t[i].wl < t[j].wl {
      assert t[i].wl == ws[i] && t[j].wl == ws[j];
    }
  }

  /** The ascending order of a table's keys determines what `CreateInterp`
      builds: the pairing of those keys, in that order, with their values. */
  lemma CreateInterpOfKeys(data: map<real, real>, ws: seq<real>)
    requires Elements(ws) == data.Keys && StrictlyAscending(ws) && |ws| >= 2
    ensures CreateInterp(data) == Ok(Paired(data, ws))
    ensures IsCurve(Paired(data, ws)) && |data| == |ws|
  {
    SortedUnique(SortedKeys(data.Keys), ws);
    ElementsOfAscending(ws);
    PairedIsCurve(data, ws);
  }

  /** Increasing neighbours make a strictly ascending sequence. */
  lemma {:induction false} NeighboursAscending(s: seq<real>)
    requires forall i :: 0 <= i < |s| - 1 ==> s[i] < s[i + 1]
    ensures StrictlyAscending(s)
  {
    if |s| > 1 {
      NeighboursAscending(s[1..]);
      forall i, j | 0 <= i < j < |s| ensures s[i] < s[j] {
        if i > 0 {
          assert s[1..][i - 1] == s[i] && s[1..][j - 1] == s[j];
        } else if j > 1 {
          assert s[1..][0] == s[1] && s[1..][j - 1] == s[j];
        }
      }
    }
  }

  /** The straight line through `a` and `b`, evaluated at `x`, written as
      slope times offset plus the left value. */
  function Line(a: Sample, b: Sample, x: real): real
    requires a.wl != b.wl
  {
    (b.val - a.val) / (b.wl - a.wl) * (x - a.wl) + a.val
  }

  /** The interpolant of `t` at `x`: the segment whose right end is the first
      sample at or beyond `x`, clipped to the first and last segments, so that
      queries outside the table extrapolate along a boundary segment. */
  function Eval(t: seq<Sample>, x: real): real
    requires IsCurve(t)
    decreases |t|
  {
    if |t| == 2 || x <= t[1].wl then Line(t[0], t[1], x) else Eval(t[1..], x)
  }

  lemma LineThroughEnds(a: Sample, b: Sample)
    requires a.wl < b.wl
    ensures Line(a, b, a.wl) == a.val && Line(a, b, b.wl) == b.val
  {
    var d := b.wl - a.wl;
    assert (b.val - a.val) / d * d == b.val - a.val;
  }

  /** On its segment the line is the weighted blend of the two end values and
      lies between them. */
  lemma LineBlend(a: Sample, b: Sample, x: real)
    requires a.wl < b.wl
    ensures Line(a, b, x) == ((b.wl - x) * a.val + (x - a.wl) * b.val) / (b.wl - a.wl)
    ensures a.wl <= x <= b.wl ==>
              (a.val <= Line(a, b, x) <= b.val) || (b.val <= Line(a, b, x) <= a.val)
  {
    var d := b.wl - a.wl;
    var slope := (b.val - a.val) / d;
    var line := Line(a, b, x);
    assert slope * d == b.val - a.val;
    assert line * d == (b.wl - x) * a.val + (x - a.wl) * b.val by {
      assert line * d == slope * d * (x - a.wl) + a.val * d;
    }
    if a.wl <= x <= b.wl {
      var theta := (x - a.wl) / d;
      assert theta * d == x - a.wl;
      assert 0.0 <= theta <= 1.0;
      assert line == a.val + (b.val - a.val) * theta;
      if a.val <= b.val {
        assert (b.val - a.val) * theta <= b.val - a.val;
      } else {
        assert (a.val - b.val) * theta <= a.val - b.val;
      }
    }
  }

  lemma {:induction false} TailIsCurve(t: seq<Sample>)
    requires IsCurve(t) && |t| > 2
    ensures IsCurve(t[1..])
  {
    forall i, j | 0 <= i < j < |t| - 1 ensures t[1..][i].wl < t[1..][j].wl {
      assert t[1..][i] == t[i + 1] && t[1..][j] == t[j + 1];
    }
  }

  /** At a sampled wavelength the interpolant returns that sample's value. */
  lemma {:induction false} EvalAtSample(t: seq<Sample>, k: nat)
    requires IsCurve(t) && k < |t|
    ensures Eval(t, t[k].wl) == t[k].val
    decreases |t|
  {
    if k <= 1 {
      LineThroughEnds(t[0], t[1]);
    } else {
      assert t[1].wl < t[k].wl;
      TailIsCurve(t);
      EvalAtSample(t[1..], k - 1);
    }
  }

  /** Strictly past the left end of sample `k` and up to sample `k+1`, the
      interpolant follows the line through those two samples. */
  lemma {:induction false} EvalOnSegment(t: seq<Sample>, k: nat, x: real)
    requires IsCurve(t) && k + 1 < |t|
    requires t[k].wl < x <= t[k + 1].wl
    ensures Eval(t, x) == Line(t[k], t[k + 1], x)
    decreases |t|
  {
    if k > 0 {
      assert t[1].wl <= t[k].wl;
      TailIsCurve(t);
      EvalOnSegment(t[1..], k - 1, x);
    }
  }

  /** Strictly between two adjacent samples the interpolant is their linear
      blend and lies between their values. */
  lemma EvalBetweenSamples(t: seq<Sample>, k: nat, x: real)
    requires IsCurve(t) && k + 1 < |t|
    requires t[k].wl < x < t[k + 1].wl
    ensures Eval(t, x) ==
              ((t[k + 1].wl - x) * t[k].val + (x - t[k].wl) * t[k + 1].val) / (t[k + 1].wl - t[k].wl)
    ensures (t[k].val <= Eval(t, x) <= t[k + 1].val) || (t[k + 1].val <= Eval(t, x) <= t[k].val)
  {
    var a, b := t[k], t[k + 1];
    EvalOnSegment(t, k, x);
    LineBlend(a, b, x);
    assert Eval(t, x) == Line(a, b, x);
  }

  /** Below the first sample the interpolant extrapolates along the first
      segment. */
  lemma EvalBelow(t: seq<Sample>, x: real)
    requires IsCurve(t) && x < t[0].wl
    ensures Eval(t, x) == Line(t[0], t[1], x)
  {
  }

  /** Above the last sample the interpolant extrapolates along the last
      segment. */
  lemma {:induction false} EvalAbove(t: seq<Sample>, x: real)
    requires IsCurve(t) && x > t[|t| - 1].wl
    ensures Eval(t, x) == Line(t[|t| - 2], t[|t| - 1], x)
    decreases |t|
  {
    if |t| > 2 {
      assert t[1].wl < t[|t| - 1].wl;
      TailIsCurve(t);
      EvalAbove(t[1..], x);
      assert t[1..][|t| - 3] == t[|t| - 2];
    }
  }

  /** Inside the sampled range a table of positive values interpolates to a
      positive value. */
  lemma {:induction false} EvalPositiveInside(t: seq<Sample>, x: real)
    requires IsCurve(t)
    requires forall i :: 0 <= i < |t| ==> t[i].val > 0.0
    requires t[0].wl <= x <= t[|t| - 1].wl
    ensures Eval(t, x) > 0.0
    decreases |t|
  {
    if |t| == 2 || x <= t[1].wl {
      LineBlend(t[0], t[1], x);
    } else {
      TailIsCurve(t);
      EvalPositiveInside(t[1..], x);
    }
  }

  // ---------------------------------------------------------------------------
  // The four chromophore tables (extinction in 1/mm, keyed by wavelength in nm)
  // ---------------------------------------------------------------------------

  const HbData: map<real, real> :=
    map[470.0 := 30.8, 495.0 := 9.0, 520.0 := 8.5, 560.0 := 13.0, 580.0 := 10.5,
        630.0 := 2.8, 660.0 := 3.0, 800.0 := 1.0, 850.0 := 0.8, 880.0 := 0.7]

  const HbO2Data: map<real, real> :=
    map[470.0 := 5.0, 495.0 := 12.0, 520.0 := 15.0, 540.0 := 18.0, 580.0 := 20.0,
        630.0 := 0.7, 660.0 := 0.9, 800.0 := 0.3, 850.0 := 0.4, 880.0 := 0.5]

  const WaterData: map<real, real> :=
    map[470.0 := 0.0002, 495.0 := 0.0003, 520.0 := 0.0005, 630.0 := 0.003,
        660.0 := 0.004, 800.0 := 0.01, 850.0 := 0.02, 880.0 := 0.03]

  const MelaninData: map<real, real> :=
    map[470.0 := 0.08, 495.0 := 0.06, 520.0 := 0.05, 630.0 := 0.02,
        660.0 := 0.015, 800.0 := 0.005, 850.0 := 0.004, 880.0 := 0.003]

  /** Each table's wavelengths in ascending order. */
  const HbWavelengths: seq<real> := [470.0, 495.0, 520.0, 560.0, 580.0, 630.0, 660.0, 800.0, 850.0, 880.0]
  const HbO2Wavelengths: seq<real> := [470.0, 495.0, 520.0, 540.0, 580.0, 630.0, 660.0, 800.0, 850.0, 880.0]
  const WaterWavelengths: seq<real> := [470.0, 495.0, 520.0, 630.0, 660.0, 800.0, 850.0, 880.0]
  const MelaninWavelengths: seq<real> := [470.0, 495.0, 520.0, 630.0, 660.0, 800.0, 850.0, 880.0]

  lemma TableKeys()
    ensures Elements(HbWavelengths) == HbData.Keys
    ensures Elements(HbO2Wavelengths) == HbO2Data.Keys
    ensures Elements(WaterWavelengths) == WaterData.Keys
    ensures Elements(MelaninWavelengths) == MelaninData.Keys
  {
  }

  /** The curves the interpolants hold: each wavelength, in ascending order,
      paired with its tabulated extinction. */
  const HbCurve: seq<Sample> := (TableKeys(); Paired(HbData, HbWavelengths))
  const HbO2Curve: seq<Sample> := (TableKeys(); Paired(HbO2Data, HbO2Wavelengths))
  const WaterCurve: seq<Sample> := (TableKeys(); Paired(WaterData, WaterWavelengths))
  const MelaninCurve: seq<Sample> := (TableKeys(); Paired(MelaninData, MelaninWavelengths))

  /** Each table, with its number of distinct wavelengths, builds through
      `CreateInterp` exactly its curve. */
  lemma HbTable()
    ensures CreateInterp(HbData) == Ok(HbCurve) && |HbData| == 10
  {
    TableKeys();
    NeighboursAscending(HbWavelengths);
    CreateInterpOfKeys(HbData, HbWavelengths);
  }

  lemma HbO2Table()
    ensures CreateInterp(HbO2Data) == Ok(HbO2Curve) && |HbO2Data| == 10
  {
    TableKeys();
    NeighboursAscending(HbO2Wavelengths);
    CreateInterpOfKeys(HbO2Data, HbO2Wavelengths);
  }

  lemma WaterTable()
    ensures CreateInterp(WaterData) == Ok(WaterCurve) && |WaterData| == 8
  {
    TableKeys();
    NeighboursAscending(WaterWavelengths);
    CreateInterpOfKeys(WaterData, WaterWavelengths);
  }

  lemma MelaninTable()
    ensures CreateInterp(MelaninData) == Ok(MelaninCurve) && |MelaninData| == 8
  {
    TableKeys();
    NeighboursAscending(MelaninWavelengths);
    CreateInterpOfKeys(MelaninData, MelaninWavelengths);
  }

  /** Each curve is a valid interpolation domain with the tabulated number of
      samples. */
  lemma HbCurveFacts()
    ensures IsCurve(HbCurve) && |HbCurve| == 10
  {
    TableKeys();
    NeighboursAscending(HbWavelengths);
    PairedIsCurve(HbData, HbWavelengths);
  }

  lemma HbO2CurveFacts()
    ensures IsCurve(HbO2Curve) && |HbO2Curve| == 10
  {
    TableKeys();
    NeighboursAscending(HbO2Wavelengths);
    PairedIsCurve(HbO2Data, HbO2Wavelengths);
  }

  lemma WaterCurveFacts()
    ensures IsCurve(WaterCurve) && |WaterCurve| == 8
  {
    TableKeys();
    NeighboursAscending(WaterWavelengths);
    PairedIsCurve(WaterData, WaterWavelengths);
  }

  lemma MelaninCurveFacts()
    ensures IsCurve(MelaninCurve) && |MelaninCurve| == 8
  {
    TableKeys();
    NeighboursAscending(MelaninWavelengths);
    PairedIsCurve(MelaninData, MelaninWavelengths);
  }

  /** Every tabulated extinction is positive. */
  lemma HbPositive()
    ensures forall i :: 0 <= i < |HbCurve| ==> HbCurve[i].val > 0.0
  {
    TableKeys();
  }

  lemma HbO2Positive()
    ensures forall i :: 0 <= i < |HbO2Curve| ==> HbO2Curve[i].val > 0.0
  {
    TableKeys();
  }

  lemma WaterPositive()
    ensures forall i :: 0 <= i < |WaterCurve| ==> WaterCurve[i].val > 0.0
  {
    TableKeys();
  }

  lemma MelaninPositive()
    ensures forall i :: 0 <= i < |MelaninCurve| ==> MelaninCurve[i].val > 0.0
  {
    TableKeys();
  }

  /** `eps_hb`, `eps_hbo2`, `eps_water`, `eps_melanin`: the interpolants of
      the four curves, which the lemmas above show are what `CreateInterp`
      builds from the four tables. */
  function EpsHb(wl: real): real {
    HbCurveFacts();
    Eval(HbCurve, wl)
  }

  function EpsHbO2(wl: real): real {
    HbO2CurveFacts();
    Eval(HbO2Curve, wl)
  }

  function EpsWater(wl: real): real {
    WaterCurveFacts();
    Eval(WaterCurve, wl)
  }

  function EpsMelanin(wl: real): real {
    MelaninCurveFacts();
    Eval(MelaninCurve, wl)
  }

  /** Every tabulated extinction is positive, so every interpolated extinction
      inside the common sampled range [470, 880] nm is positive. */
  lemma ExtinctionsPositiveInside(wl: real)
    requires 470.0 <= wl <= 880.0
    ensures EpsHb(wl) > 0.0 && EpsHbO2(wl) > 0.0 && EpsWater(wl) > 0.0 && EpsMelanin(wl) > 0.0
  {
    HbPositiveInside(wl);
    HbO2PositiveInside(wl);
    WaterPositiveInside(wl);
    MelaninPositiveInside(wl);
  }

  lemma HbPositiveInside(wl: real)
    requires 470.0 <= wl <= 880.0
    ensures EpsHb(wl) > 0.0
  {
    HbCurveFacts();
    HbPositive();
    EvalPositiveInside(HbCurve, wl);
  }

  lemma HbO2PositiveInside(wl: real)
    requires 470.0 <= wl <= 880.0
    ensures EpsHbO2(wl) > 0.0
  {
    HbO2CurveFacts();
    HbO2Positive();
    EvalPositiveInside(HbO2Curve, wl);
  }

  lemma WaterPositiveInside(wl: real)
    requires 470.0 <= wl <= 880.0
    ensures EpsWater(wl) > 0.0
  {
    WaterCurveFacts();
    WaterPositive();
    EvalPositiveInside(WaterCurve, wl);
  }

  lemma MelaninPositiveInside(wl: real)
    requires 470.0 <= wl <= 880.0
    ensures EpsMelanin(wl) > 0.0
  {
    MelaninCurveFacts();
    MelaninPositive();
    EvalPositiveInside(MelaninCurve, wl);
  }

  /** Extrapolation is unbounded: deoxyhaemoglobin's last segment falls, so
      far enough past 880 nm its extinction estimate is negative. */
  lemma HbExtrapolatesNegative()
    ensures EpsHb(1200.0) < 0.0
  {
    HbCurveFacts();
    EvalAbove(HbCurve, 1200.0);
  }

  // ---------------------------------------------------------------------------
  // The seven-layer catalog and the hemangioma constants
  // ---------------------------------------------------------------------------

  /** One anatomical layer: thickness `d` in mm, refractive index `n`, blood and
      water volume fractions, anisotropy `g` and the reduced-scattering
      amplitude and exponent. */
  datatype LayerParams = LayerParams(
    name: string,
    d: real,
    n: real,
    cBlood: real,
    cWater: real,
    g: real,
    aScatter: real,
    bScatter: real)

  /** The layers from the surface down. */
  const LayerCatalog: seq<LayerParams> := [
    LayerParams("Stratum Corneum", 0.02, 1.5, 0.0, 0.05, 0.9, 1.2, 0.5),
    LayerParams("Epidermis", 0.08, 1.4, 0.0, 0.1, 0.8, 1.0, 0.6),
    LayerParams("Papillary Dermis", 0.1, 1.4, 0.05, 0.2, 0.8, 1.5, 0.7),
    LayerParams("Reticular Dermis 1", 0.2, 1.38, 0.03, 0.3, 0.7, 2.0, 0.8),
    LayerParams("Reticular Dermis 2", 0.5, 1.38, 0.02, 0.4, 0.7, 2.5, 0.9),
    LayerParams("Deep Dermis", 1.0, 1.36, 0.01, 0.5, 0.6, 3.0, 1.0),
    LayerParams("Subcutaneous Fat", 2.0, 1.44, 0.005, 0.6, 0.5, 4.0, 1.2)
  ]

  /** The lesion model: a blood multiplier and an oxygen-saturation increase. */
  datatype HemangiomaParams = HemangiomaParams(bloodMultiplier: real, sO2Increase: real)

  const Hemangioma: HemangiomaParams := HemangiomaParams(5.0, 0.05)

  /** Every catalog entry is physically sensible and keeps `1 - g` above the
      scattering guard threshold of 1e-6. */
  lemma CatalogWellFormed()
    ensures |LayerCatalog| == 7
    ensures forall i :: 0 <= i < |LayerCatalog| ==>
              LayerCatalog[i].d > 0.0 && LayerCatalog[i].n > 0.0 &&
              0.0 <= LayerCatalog[i].cBlood <= 1.0 && 0.0 <= LayerCatalog[i].cWater <= 1.0 &&
              LayerCatalog[i].g < 1.0 - 0.000001 &&
              LayerCatalog[i].aScatter > 0.0 && LayerCatalog[i].bScatter > 0.0
  {
  }
}
