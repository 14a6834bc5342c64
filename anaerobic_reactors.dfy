/**
 * The anaerobic continuous stirred tank reactor with a biogas headspace
 * (`AnaerobicCSTR` in qsdsan/sanunits/_anaerobic_reactors.py).
 *
 * The reactor's dynamic state is one flat vector: the liquid-phase
 * concentration of every component, then the headspace concentration of
 * every biogas, then the liquid flow rate Q. The compiled ODE writes the
 * derivative of that vector, segment by segment, into a shared buffer, and
 * the projectors copy state and derivative into the two outlet streams.
 *
 * The kinetic model (parameter evaluation, stoichiometry, rates), the vapour
 * pressure of water and the exogenous variables are inputs; every quantity
 * is a real number.
 */
module AnaerobicReactors {
  import opened Wrappers

  /** The universal gas constant, in bar/M/K. */
  const R: real := 0.083145

  datatype Error =
    /** A Python float division by zero (`ZeroDivisionError`). */
    | DivisionByZero
    /** A component ID that is not among the reactor's components. */
    | UndefinedChemical(id: string)
    /** numpy could not combine operands of these shapes. */
    | ShapeMismatch
    /** The state vector given to the `state` setter does not have `expected` entries. */
    | StateLengthMismatch(expected: nat)
    /** The layout read by an operation has not been set, because no kinetic model was ever bound. */
    | NoModel

  // ---------------------------------------------------------------------
  // The ideal gas law
  // ---------------------------------------------------------------------

  /**
   * `ideal_gas_law(p, S)`: a partial pressure p [bar] becomes a concentration
   * p/R/T [M], else a concentration S becomes a pressure S·R·T. Arguments are
   * read for truthiness: an absent or zero argument is skipped, and with neither
   * the result is `None`.
   */
  function IdealGasLaw(p: Option<real>, s: Option<real>, T: real): (r: Result<Option<real>, Error>)
    ensures r.Err? <==> p.Some? && p.value != 0.0 && T == 0.0
    ensures r.Err? ==> r.error == DivisionByZero
    ensures r == Ok(None) <==> (p.None? || p.value == 0.0) && (s.None? || s.value == 0.0)
    // a truthy pressure takes precedence over any concentration
    ensures p.Some? && p.value != 0.0 && T != 0.0 ==> r == Ok(Some(p.value / R / T))
    ensures (p.None? || p.value == 0.0) && s.Some? && s.value != 0.0 ==> r == Ok(Some(s.value * R * T))
  {
    if p.Some? && p.value != 0.0 then
      if T == 0.0 then Err(DivisionByZero) else Ok(Some(p.value / R / T))
    else if s.Some? && s.value != 0.0 then
      Ok(Some(s.value * R * T))
    else
      Ok(None)
  }

  lemma ProductNonZero(a: real, b: real)
    requires a != 0.0 && b != 0.0
    ensures a * b != 0.0
  {
  }

  /** Converting a concentration to a pressure and back gives the concentration. */
  lemma ConcentrationRoundTrip(s: real, T: real)
    requires s != 0.0 && T > 0.0
    ensures IdealGasLaw(None, Some(s), T) == Ok(Some(s * R * T))
    ensures IdealGasLaw(Some(s * R * T), None, T) == Ok(Some(s))
  {
    var c := IdealGasLaw(None, Some(s), T);
    assert c.Ok? && c.value.Some? && c.value.value == s * R * T;
    ProductNonZero(s, R);
    ProductNonZero(s * R, T);
    assert s * R * T / R / T == s;
  }

  /** Converting a pressure to a concentration and back gives the pressure. */
  lemma PressureRoundTrip(p: real, T: real)
    requires p != 0.0 && T > 0.0
    ensures IdealGasLaw(Some(p), None, T) == Ok(Some(p / R / T))
    ensures IdealGasLaw(None, Some(p / R / T), T) == Ok(Some(p))
  {
    var c := p / R / T;
    assert c * R * T == p;
    assert c != 0.0;
    var back := IdealGasLaw(None, Some(c), T);
    assert back.Ok? && back.value.Some? && back.value.value == c * R * T;
  }

  /** A zero pressure is falsy: the call behaves as if no pressure were given. */
  lemma ZeroPressureFallsThrough(s: Option<real>, T: real)
    ensures IdealGasLaw(Some(0.0), s, T) == IdealGasLaw(None, s, T)
  {
  }

  // ---------------------------------------------------------------------
  // Components and the state layout
  // ---------------------------------------------------------------------

  /** The reactor's components: IDs, molecular weights and mass-measure factors `i_mass`. */
  datatype Components = Components(ids: seq<string>, chemMW: seq<real>, iMass: seq<real>)
  {
    predicate Valid()
    {
      && |chemMW| == |ids| && |iMass| == |ids|
      && (forall i :: 0 <= i < |ids| ==> chemMW[i] > 0.0 && iMass[i] > 0.0)
      && "H2O" in ids
    }

    /** `components.index('H2O')`. */
    function H2OIndex(): (k: nat)
      requires Valid()
      ensures k < |ids| && ids[k] == "H2O"
    {
      IndexOf(ids, "H2O").value
    }
  }

  /** `list.index`: the first position of `x` in `ids`. */
  function IndexOf(ids: seq<string>, x: string): (r: Option<nat>)
    ensures r.None? <==> x !in ids
    ensures r.Some? ==> r.value < |ids| && ids[r.value] == x && x !in ids[..r.value]
  {
    if ids == [] then None
    else if ids[0] == x then Some(0)
    else
      match IndexOf(ids[1..], x)
      case None => None
      case Some(k) =>
        assert ids[..k + 1] == [ids[0]] + ids[1..][..k];
        Some(k + 1)
  }

  /** `components.indices(IDs)`: the position of every ID in turn, or the first ID not found. */
  function Indices(ids: seq<string>, wanted: seq<string>): (r: Result<seq<nat>, Error>)
    ensures r.Ok? <==> forall w :: w in wanted ==> w in ids
    ensures r.Ok? ==> |r.value| == |wanted|
    ensures r.Ok? ==> forall j :: 0 <= j < |wanted| ==> r.value[j] < |ids| && ids[r.value[j]] == wanted[j]
    ensures r.Err? ==> r.error.UndefinedChemical? && r.error.id in wanted && r.error.id !in ids
  {
    if wanted == [] then Ok([])
    else
      match IndexOf(ids, wanted[0])
      case None => Err(UndefinedChemical(wanted[0]))
      case Some(k) =>
        match Indices(ids, wanted[1..])
        case Err(e) => Err(e)
        case Ok(rest) =>
          assert forall w :: w in wanted ==> w == wanted[0] || w in wanted[1..];
          Ok([k] + rest)
  }

  /** The headspace keys: every biogas ID with the suffix `_gas`. */
  function GasKeys(biogasIDs: seq<string>): (r: seq<string>)
    ensures |r| == |biogasIDs|
    ensures forall j :: 0 <= j < |r| ==> r[j] == biogasIDs[j] + "_gas"
  {
    seq(|biogasIDs|, j requires 0 <= j < |biogasIDs| => biogasIDs[j] + "_gas")
  }

  /** Distinct biogases get distinct headspace keys: the `_gas` suffix loses nothing, so no state entry is shadowed. */
  lemma GasKeysInjective(biogasIDs: seq<string>, i: nat, j: nat)
    requires i < |biogasIDs| && j < |biogasIDs|
    requires GasKeys(biogasIDs)[i] == GasKeys(biogasIDs)[j]
    ensures biogasIDs[i] == biogasIDs[j]
  {
    var a, b := biogasIDs[i], biogasIDs[j];
    assert |a| == |b| by { assert |a + "_gas"| == |b + "_gas"|; }
    assert a == (a + "_gas")[..|a|];
    assert b == (b + "_gas")[..|b|];
  }

  /**
   * The state keys bound with a model: the component IDs, then the
   * headspace keys, then "Q".
   */
  function StateKeys(cmpIDs: seq<string>, biogasIDs: seq<string>): (r: seq<string>)
    ensures |r| == |cmpIDs| + |biogasIDs| + 1
    ensures forall i :: 0 <= i < |cmpIDs| ==> r[i] == cmpIDs[i]
    ensures forall j :: 0 <= j < |biogasIDs| ==> r[|cmpIDs| + j] == biogasIDs[j] + "_gas"
    ensures r[|r| - 1] == "Q"
  {
    cmpIDs + GasKeys(biogasIDs) + ["Q"]
  }

  /**
   * The retention vector: `fraction` for every component whose ID is
   * retained, 0 for the others.
   */
  function RetentionVector(ids: seq<string>, retain: seq<string>, fraction: real): (f: seq<real>)
    ensures |f| == |ids|
    ensures forall i :: 0 <= i < |ids| ==> f[i] == if ids[i] in retain then fraction else 0.0
  {
    seq(|ids|, i requires 0 <= i < |ids| => if ids[i] in retain then fraction else 0.0)
  }

  /** Retention is all-or-nothing per component: with a non-zero fraction, `f[i]` is the fraction exactly for retained IDs. */
  lemma RetentionExactlyRetained(ids: seq<string>, retain: seq<string>, fraction: real, i: int)
    requires 0 <= i < |ids| && fraction != 0.0
    ensures RetentionVector(ids, retain, fraction)[i] == fraction <==> ids[i] in retain
    ensures RetentionVector(ids, retain, fraction)[i] == 0.0 <==> ids[i] !in retain
  {
  }

  /** `dict(zip(keys, vals))`: the first n pairs inserted in order, so a repeated key keeps its last value. */
  function ZipMap(keys: seq<string>, vals: seq<real>): map<string, real>
  {
    ZipPrefix(keys, vals, Min(|keys|, |vals|))
  }

  function ZipPrefix(keys: seq<string>, vals: seq<real>, n: nat): map<string, real>
    requires n <= |keys| && n <= |vals|
  {
    if n == 0 then map[] else ZipPrefix(keys, vals, n - 1)[keys[n - 1] := vals[n - 1]]
  }

  /** The dictionary has exactly the keys of the zipped prefix. */
  lemma {:induction false} ZipPrefixKeys(keys: seq<string>, vals: seq<real>, n: nat)
    requires n <= |keys| && n <= |vals|
    ensures forall k :: k in ZipPrefix(keys, vals, n) <==> k in keys[..n]
  {
    if n > 0 {
      ZipPrefixKeys(keys, vals, n - 1);
      assert keys[..n] == keys[..n - 1] + [keys[n - 1]];
    }
  }

  /** A key maps to the value paired with its last occurrence. */
  lemma {:induction false} ZipPrefixLookup(keys: seq<string>, vals: seq<real>, n: nat, i: nat)
    requires i < n <= |keys| && n <= |vals|
    requires keys[i] !in keys[i + 1..n]
    ensures keys[i] in ZipPrefix(keys, vals, n) && ZipPrefix(keys, vals, n)[keys[i]] == vals[i]
  {
    if i < n - 1 {
      assert keys[n - 1] in keys[i + 1..n];
      assert keys[i + 1..n - 1] == keys[i + 1..n][..n - 2 - i];
      ZipPrefixLookup(keys, vals, n - 1, i);
    }
  }

  /** The state getter's mapping: state keys paired with state entries, the last duplicate winning. */
  lemma ZipMapLookup(keys: seq<string>, vals: seq<real>, i: nat)
    requires i < |keys| && i < |vals|
    requires keys[i] !in keys[i + 1..Min(|keys|, |vals|)]
    ensures keys[i] in ZipMap(keys, vals) && ZipMap(keys, vals)[keys[i]] == vals[i]
  {
    ZipPrefixLookup(keys, vals, Min(|keys|, |vals|), i);
  }

  function Min(a: int, b: int): int
  {
    if a <= b then a else b
  }

  // ---------------------------------------------------------------------
  // Sums and the derivative formulas
  // ---------------------------------------------------------------------

  /** `sum` of a vector. */
  function Sum(xs: seq<real>): real
  {
    if xs == [] then 0.0 else xs[0] + Sum(xs[1..])
  }

  /** Every entry times `c`. */
  function Scale(xs: seq<real>, c: real): (r: seq<real>)
    ensures |r| == |xs| && forall i :: 0 <= i < |xs| ==> r[i] == xs[i] * c
  {
    seq(|xs|, i requires 0 <= i < |xs| => xs[i] * c)
  }

  /** Entry by entry product of two vectors of one length. */
  function Times(xs: seq<real>, ys: seq<real>): (r: seq<real>)
    requires |xs| == |ys|
    ensures |r| == |xs| && forall i :: 0 <= i < |xs| ==> r[i] == xs[i] * ys[i]
  {
    seq(|xs|, i requires 0 <= i < |xs| => xs[i] * ys[i])
  }

  /** Scaling a vector scales its sum. */
  lemma {:induction false} SumScale(xs: seq<real>, ys: seq<real>, c: real)
    requires |ys| == |xs| && forall i :: 0 <= i < |xs| ==> ys[i] == xs[i] * c
    ensures Sum(ys) == Sum(xs) * c
  {
    if xs != [] {
      SumScale(xs[1..], ys[1..], c);
    }
  }

  /** A vector of zeros sums to zero. */
  lemma {:induction false} SumZeros(xs: seq<real>)
    requires forall i :: 0 <= i < |xs| ==> xs[i] == 0.0
    ensures Sum(xs) == 0.0
  {
    if xs != [] {
      SumZeros(xs[1..]);
    }
  }

  /** A vector that is nowhere smaller has a sum that is not smaller. */
  lemma {:induction false} SumMonotone(xs: seq<real>, ys: seq<real>)
    requires |xs| == |ys| && forall i :: 0 <= i < |xs| ==> xs[i] <= ys[i]
    ensures Sum(xs) <= Sum(ys)
  {
    if xs != [] {
      SumMonotone(xs[1..], ys[1..]);
    }
  }

  /** Row `i` of `Mᵀ·rhos`: the net production of component `i` over all reactions. */
  function StoichTerm(m: seq<seq<real>>, rhos: seq<real>, i: nat): real
    requires |m| == |rhos| && forall j :: 0 <= j < |m| ==> i < |m[j]|
  {
    if m == [] then 0.0 else m[0][i] * rhos[0] + StoichTerm(m[1..], rhos[1..], i)
  }

  /** A reaction set at rest produces nothing. */
  lemma {:induction false} StoichTermAtRest(m: seq<seq<real>>, rhos: seq<real>, i: nat)
    requires |m| == |rhos| && forall j :: 0 <= j < |m| ==> i < |m[j]|
    requires forall j :: 0 <= j < |rhos| ==> rhos[j] == 0.0
    ensures StoichTerm(m, rhos, i) == 0.0
  {
    if m != [] {
      StoichTermAtRest(m[1..], rhos[1..], i);
    }
  }

  /**
   * The liquid derivative of one component: inflow `qIn·sIn·1e-3` (sIn in
   * mg/L) less the outflow `q·s·(1 - f)` not held back by retention, over
   * the liquid volume, plus the net production by the reactions.
   */
  function LiquidDerivative(qIn: real, sIn: real, q: real, s: real, f: real, vLiq: real, production: real): real
    requires vLiq != 0.0
  {
    (qIn * (sIn * 0.001) - q * s * (1.0 - f)) / vLiq + production
  }

  /** Retention changes only the outflow term, by exactly the retained outflow `q·s·f/V`. */
  lemma RetentionScalesOutflow(qIn: real, sIn: real, q: real, s: real, f: real, vLiq: real, production: real)
    requires vLiq != 0.0
    ensures LiquidDerivative(qIn, sIn, q, s, f, vLiq, production)
      == LiquidDerivative(qIn, sIn, q, s, 0.0, vLiq, production) + q * s * f / vLiq
  {
    var a := qIn * (sIn * 0.001);
    assert q * s * (1.0 - f) == q * s - q * s * f;
    assert (a - (q * s - q * s * f)) / vLiq == (a - q * s) / vLiq + q * s * f / vLiq;
  }

  /** Without reactions, a component is at steady state exactly when inflow balances the unretained outflow. */
  lemma LiquidSteadyState(qIn: real, sIn: real, q: real, s: real, f: real, vLiq: real)
    requires vLiq != 0.0
    ensures LiquidDerivative(qIn, sIn, q, s, f, vLiq, 0.0) == 0.0 <==> qIn * (sIn * 0.001) == q * s * (1.0 - f)
  {
    var d := qIn * (sIn * 0.001) - q * s * (1.0 - f);
    assert d / vLiq == 0.0 <==> d == 0.0 by {
      if d / vLiq == 0.0 {
        assert d == (d / vLiq) * vLiq;
      }
    }
  }

  /**
   * The headspace derivative of one biogas: gas leaving with the biogas flow,
   * `-qGas·S/V_gas`, and gas produced in the liquid, `rho·V_liq/V_gas·conv`.
   */
  function GasDerivative(qGas: real, s: real, vGas: real, rho: real, vLiq: real, conv: real): real
    requires vGas != 0.0
  {
    -qGas * s / vGas + rho * vLiq / vGas * conv
  }

  /** The headspace balance: accumulation times volume is production less outflow. */
  lemma GasBalance(qGas: real, s: real, vGas: real, rho: real, vLiq: real, conv: real)
    requires vGas != 0.0
    ensures GasDerivative(qGas, s, vGas, rho, vLiq, conv) * vGas == rho * vLiq * conv - qGas * s
  {
    assert (-qGas * s / vGas) * vGas == -qGas * s;
    assert (rho * vLiq / vGas * conv) * vGas == rho * vLiq * conv;
  }

  /** The partial pressures `S·R·T` of the headspace gases. */
  function PartialPressures(sGas: seq<real>, T: real): (p: seq<real>)
    ensures |p| == |sGas| && forall j :: 0 <= j < |sGas| ==> p[j] == sGas[j] * R * T
  {
    seq(|sGas|, j requires 0 <= j < |sGas| => sGas[j] * R * T)
  }

  /** The headspace pressure in variable-pressure mode: the partial pressures plus water vapour. */
  function HeadspacePressure(sGas: seq<real>, T: real, pVapor: real): real
  {
    Sum(PartialPressures(sGas, T)) + pVapor
  }

  /** The partial pressures add up to the ideal-gas pressure of the total concentration. */
  lemma HeadspacePressureOfTotal(sGas: seq<real>, T: real, pVapor: real)
    ensures HeadspacePressure(sGas, T, pVapor) == Sum(sGas) * (R * T) + pVapor
  {
    SumPartialPressures(sGas, T);
  }

  lemma SumPartialPressures(sGas: seq<real>, T: real)
    ensures Sum(PartialPressures(sGas, T)) == Sum(sGas) * (R * T)
  {
    PartialPressuresScale(sGas, T);
    SumScale(sGas, PartialPressures(sGas, T), R * T);
  }

  lemma PartialPressuresScale(sGas: seq<real>, T: real)
    ensures forall j :: 0 <= j < |sGas| ==> PartialPressures(sGas, T)[j] == sGas[j] * (R * T)
  {
    forall j | 0 <= j < |sGas|
      ensures PartialPressures(sGas, T)[j] == sGas[j] * (R * T)
    {
      MulAssoc(sGas[j], R, T);
    }
  }

  lemma MulAssoc(a: real, b: real, c: real)
    ensures a * b * c == a * (b * c)
  {
  }

  /** An empty headspace holds only water vapour. */
  lemma HeadspaceOfNoGas(sGas: seq<real>, T: real, pVapor: real)
    requires forall j :: 0 <= j < |sGas| ==> sGas[j] == 0.0
    ensures HeadspacePressure(sGas, T, pVapor) == pVapor
  {
    SumZeros(PartialPressures(sGas, T));
  }

  /** More gas in the headspace never lowers its pressure. */
  lemma HeadspacePressureMonotone(s1: seq<real>, s2: seq<real>, T: real, pVapor: real)
    requires T >= 0.0
    requires |s1| == |s2| && forall j :: 0 <= j < |s1| ==> s1[j] <= s2[j]
    ensures HeadspacePressure(s1, T, pVapor) <= HeadspacePressure(s2, T, pVapor)
  {
    var p1, p2 := PartialPressures(s1, T), PartialPressures(s2, T);
    forall j | 0 <= j < |s1|
      ensures p1[j] <= p2[j]
    {
      MulRight(s1[j], s2[j], R * T);
    }
    SumMonotone(p1, p2);
  }

  lemma MulRight(a: real, b: real, c: real)
    requires a <= b && c >= 0.0
    ensures a * c <= b * c
  {
  }

  /**
   * The biogas flow with a fixed headspace pressure `pGas`: the gas produced,
   * `V_liq·Σ rho·conv` moles per day, at the volume `R·T/(pGas - pVapor)` per
   * mole. Equal pressures divide by zero; vectors of different lengths do
   * not combine.
   */
  function FixedPressureGasFlow(rhoTs: seq<real>, conv: seq<real>, T: real, pGas: real, pVapor: real, vLiq: real)
    : (r: Result<real, Error>)
    ensures r == Err(DivisionByZero) <==> pGas - pVapor == 0.0
    ensures r == Err(ShapeMismatch) <==> pGas - pVapor != 0.0 && |rhoTs| != |conv|
  {
    if pGas - pVapor == 0.0 then Err(DivisionByZero)
    else if |rhoTs| != |conv| then Err(ShapeMismatch)
    else Ok(R * T / (pGas - pVapor) * vLiq * Sum(Times(rhoTs, conv)))
  }

  /** At the fixed pressure, the gas flow is the ideal-gas volume of the moles produced. */
  lemma FixedPressureGasFlowIsIdealGas(rhoTs: seq<real>, conv: seq<real>, T: real, pGas: real, pVapor: real, vLiq: real)
    requires FixedPressureGasFlow(rhoTs, conv, T, pGas, pVapor, vLiq).Ok?
    ensures FixedPressureGasFlow(rhoTs, conv, T, pGas, pVapor, vLiq).value * (pGas - pVapor)
      == R * T * (vLiq * Sum(Times(rhoTs, conv)))
  {
    var d := pGas - pVapor;
    var n := vLiq * Sum(Times(rhoTs, conv));
    assert R * T / d * vLiq * Sum(Times(rhoTs, conv)) == R * T / d * n;
    assert R * T / d * n * d == R * T * n;
  }

  // ---------------------------------------------------------------------
  // Projections into the outlet streams
  // ---------------------------------------------------------------------

  /** A liquid cell as the effluent sees it: what retention lets through, from kg/m3 to mg/L. */
  function LiquidOutlet(y: real, f: real): real
  {
    y * (1.0 - f) * 1000.0
  }

  /** The mole-to-mass factors `(i_mass / chem_MW)[idx]` of the biogas components. */
  function GasConversion(cmps: Components, idx: seq<nat>): (conv: seq<real>)
    requires cmps.Valid() && forall j :: 0 <= j < |idx| ==> idx[j] < |cmps.ids|
    ensures |conv| == |idx|
    ensures forall j :: 0 <= j < |idx| ==> conv[j] == cmps.iMass[idx[j]] / cmps.chemMW[idx[j]]
  {
    seq(|idx|, j requires 0 <= j < |idx| => cmps.iMass[idx[j]] / cmps.chemMW[idx[j]])
  }

  /** numpy's `a[idx] = vals` for the first `k` pairs, written in order. */
  function Scatter(base: seq<real>, idx: seq<nat>, vals: seq<real>, k: nat): (r: seq<real>)
    requires k <= |idx| && k <= |vals| && forall j :: 0 <= j < |idx| ==> idx[j] < |base|
    ensures |r| == |base|
  {
    if k == 0 then base else Scatter(base, idx, vals, k - 1)[idx[k - 1] := vals[k - 1]]
  }

  /** A cell no index names keeps its value. */
  lemma {:induction false} ScatterUntouched(base: seq<real>, idx: seq<nat>, vals: seq<real>, k: nat, i: nat)
    requires k <= |idx| && k <= |vals| && forall j :: 0 <= j < |idx| ==> idx[j] < |base|
    requires i < |base| && i !in idx[..k]
    ensures Scatter(base, idx, vals, k)[i] == base[i]
  {
    if k > 0 {
      assert idx[k - 1] in idx[..k];
      assert idx[..k - 1] == idx[..k][..k - 1];
      ScatterUntouched(base, idx, vals, k - 1, i);
    }
  }

  /** A cell named more than once holds the value of its last assignment. */
  lemma {:induction false} ScatterLastWins(base: seq<real>, idx: seq<nat>, vals: seq<real>, k: nat, j: nat)
    requires k <= |idx| && k <= |vals| && forall j :: 0 <= j < |idx| ==> idx[j] < |base|
    requires j < k && idx[j] !in idx[j + 1..k]
    ensures Scatter(base, idx, vals, k)[idx[j]] == vals[j]
  {
    if j < k - 1 {
      var t := idx[j + 1..k];
      assert t[|t| - 1] == idx[k - 1];
      assert idx[j] != idx[k - 1];
      assert idx[j] !in idx[j + 1..k - 1] by {
        forall i | j + 1 <= i < k - 1 ensures idx[i] != idx[j] { assert idx[i] == t[i - j - 1]; }
      }
      ScatterLastWins(base, idx, vals, k - 1, j);
    }
  }

  /**
   * The headspace cells of the gas stream before the unit conversion: the
   * biogas concentrations scattered to their component positions, then the
   * water vapour into the H2O cell, then the biogas flow into the last cell.
   */
  function GasCells(base: seq<real>, idx: seq<nat>, vals: seq<real>, h2o: nat, sVapor: real, qGas: real): (r: seq<real>)
    requires |idx| == |vals| && 0 < |base| && h2o < |base|
    requires forall j :: 0 <= j < |idx| ==> idx[j] < |base|
    ensures |r| == |base|
  {
    Scatter(base, idx, vals, |idx|)[h2o := sVapor][|base| - 1 := qGas]
  }

  /** Which cells of the gas stream hold what, before the unit conversion. */
  lemma GasCellsWritten(base: seq<real>, idx: seq<nat>, vals: seq<real>, h2o: nat, sVapor: real, qGas: real)
    requires |idx| == |vals| && 0 < |base| && h2o < |base| - 1
    requires forall j :: 0 <= j < |idx| ==> idx[j] < |base| - 1
    ensures GasCells(base, idx, vals, h2o, sVapor, qGas)[|base| - 1] == qGas
    ensures GasCells(base, idx, vals, h2o, sVapor, qGas)[h2o] == sVapor
    ensures forall j :: 0 <= j < |idx| && idx[j] != h2o && idx[j] !in idx[j + 1..] ==>
      GasCells(base, idx, vals, h2o, sVapor, qGas)[idx[j]] == vals[j]
    ensures forall i :: 0 <= i < |base| - 1 && i != h2o && i !in idx ==>
      GasCells(base, idx, vals, h2o, sVapor, qGas)[i] == base[i]
  {
    forall j | 0 <= j < |idx| && idx[j] != h2o && idx[j] !in idx[j + 1..]
      ensures GasCells(base, idx, vals, h2o, sVapor, qGas)[idx[j]] == vals[j]
    {
      assert idx[j + 1..] == idx[j + 1..|idx|];
      ScatterLastWins(base, idx, vals, |idx|, j);
    }
    forall i | 0 <= i < |base| - 1 && i != h2o && i !in idx
      ensures GasCells(base, idx, vals, h2o, sVapor, qGas)[i] == base[i]
    {
      assert idx[..|idx|] == idx;
      ScatterUntouched(base, idx, vals, |idx|, i);
    }
  }

  /** A headspace cell as the gas stream reports it: from M to mg/L of the measured unit. */
  function GasOutlet(cell: real, chemMW: real, iMass: real): real
    requires iMass != 0.0
  {
    cell * chemMW / iMass * 1000.0
  }

  /** `rhos[-3:]`: the last three rates, or all of them when there are fewer. */
  function LastThree(rhos: seq<real>): (r: seq<real>)
    ensures |r| == Min(3, |rhos|)
    ensures forall j :: 0 <= j < |r| ==> r[j] == rhos[|rhos| - |r| + j]
  {
    if |rhos| <= 3 then rhos else rhos[|rhos| - 3..]
  }

  /** `np.dot(M.T, rhos)` is defined: one row of stoichiometry per rate, one column per component. */
  predicate StoichShapeOk(m: seq<seq<real>>, rhos: seq<real>, n: nat)
  {
    |m| == |rhos| && forall j :: 0 <= j < |m| ==> |m[j]| == n
  }

  // ---------------------------------------------------------------------
  // The state layout a kinetic model binds
  // ---------------------------------------------------------------------

  /**
   * A bound kinetic model. `stoichio(QC)` is the matrix `stoichio_eval()`
   * returns once `params_eval(QC)` has set the parameters, and `rates(QC)` is
   * `rate_function(QC)`, so both depend on the state they are evaluated at.
   */
  datatype KineticModel = KineticModel(
    biogasIDs: seq<string>,
    stoichio: seq<real> -> seq<seq<real>>,
    rates: seq<real> -> seq<real>)

  /**
   * The fields the model setter assigns: the water-vapour concentration,
   * the number of biogases, the state keys and the biogas positions among
   * the components; each is `None` until a model is bound.
   */
  datatype Layout = Layout(
    sVapor: Option<real>, nGas: Option<nat>,
    stateKeys: Option<seq<string>>, gasCmpIdx: Option<seq<nat>>)
  {
    /** The key count matches the biogas count, and every biogas position is a component. */
    predicate Consistent(n: nat)
    {
      && (nGas.Some? <==> stateKeys.Some?)
      && (stateKeys.Some? ==> |stateKeys.value| == n + nGas.value + 1)
      && (gasCmpIdx.Some? ==> forall j :: 0 <= j < |gasCmpIdx.value| ==> gasCmpIdx.value[j] < n)
    }

    /** Every field is set and agrees with the others, as after a successful binding. */
    predicate Ready(n: nat)
    {
      Consistent(n) && sVapor.Some? && nGas.Some? && gasCmpIdx.Some? && |gasCmpIdx.value| == nGas.value
    }
  }

  const Unbound := Layout(None, None, None, None)

  /**
   * Binding a model with the given biogases: the vapour concentration
   * first (which divides by T), then the biogas count and the state
   * keys, then the positions of the biogases, which fails for an ID that
   * is not a component and leaves the positions as they were.
   */
  function BindModel(lay: Layout, cmpIDs: seq<string>, biogasIDs: seq<string>, pVapor: real, T: real)
    : (r: (Layout, Result<(), Error>))
    ensures r.1.Ok? <==> (pVapor == 0.0 || T != 0.0) && forall id :: id in biogasIDs ==> id in cmpIDs
    ensures pVapor != 0.0 && T == 0.0 ==> r.0 == lay && r.1 == Err(DivisionByZero)
    ensures pVapor == 0.0 || T != 0.0 ==> r.0.sVapor == IdealGasLaw(Some(pVapor), None, T).value
    ensures pVapor == 0.0 || T != 0.0 ==>
      r.0.nGas == Some(|biogasIDs|) && r.0.stateKeys == Some(StateKeys(cmpIDs, biogasIDs))
    ensures r.1.Ok? ==> r.0.gasCmpIdx.Some? && |r.0.gasCmpIdx.value| == |biogasIDs|
    ensures r.1.Ok? ==> forall j :: 0 <= j < |biogasIDs| ==>
      r.0.gasCmpIdx.value[j] < |cmpIDs| && cmpIDs[r.0.gasCmpIdx.value[j]] == biogasIDs[j]
    ensures (pVapor == 0.0 || T != 0.0) && r.1.Err? ==> r.0.gasCmpIdx == lay.gasCmpIdx && r.1.error.UndefinedChemical?
    ensures lay.Consistent(|cmpIDs|) ==> r.0.Consistent(|cmpIDs|)
    ensures r.1.Ok? && pVapor != 0.0 ==> r.0.Ready(|cmpIDs|)
  {
    match IdealGasLaw(Some(pVapor), None, T)
    case Err(e) => (lay, Err(e))
    case Ok(sv) =>
      var bound := Layout(sv, Some(|biogasIDs|), Some(StateKeys(cmpIDs, biogasIDs)), lay.gasCmpIdx);
      match Indices(cmpIDs, biogasIDs)
      case Err(e) => (bound, Err(e))
      case Ok(idx) => (bound.(gasCmpIdx := Some(idx)), Ok(()))
  }

  /** A compiled ODE: `dy_dt` with the values `_compile_ODE` captured, among
   * them the derivative buffer it writes into. `Inherited` is the generic
   * CSTR's ODE, compiled when no model is bound.
   */
  datatype Ode =
    | Compiled(
        dstate: array?<real>, nCmps: nat, nGas: nat, f: seq<real>,
        vLiq: real, vGas: real, T: real, conv: seq<real>,
        hasExo: bool, fixedP: bool, model: KineticModel)
    | Inherited

  /** The state the kinetics see: with exogenous variables, their values are appended. */
  function KineticInput(o: Ode, qc: seq<real>, exo: seq<real>): seq<real>
    requires o.Compiled?
  {
    if o.hasExo then qc + exo else qc
  }

  // ---------------------------------------------------------------------
  // The reactor
  // ---------------------------------------------------------------------

  /** An outlet stream's dynamic arrays; `null` until a projector first allocates them. */
  class OutletStream {
    var state: array?<real>
    var dstate: array?<real>

    constructor ()
      ensures state == null && dstate == null
    {
      state := null;
      dstate := null;
    }
  }

  function Zeros(k: nat): (z: seq<real>)
    ensures |z| == k && forall i :: 0 <= i < k ==> z[i] == 0.0
  {
    seq(k, i => 0.0)
  }

  /**
   * The liquid projection shared by `_update_state` and `_update_dstate`:
   * the first n cells of `y` as the effluent sees them, then the last cell of
   * `y`. The stream's array `a` is overwritten in place when it exists and
   * allocated otherwise.
   */
  method ProjectLiquid(a: array?<real>, y: seq<real>, f: seq<real>) returns (b: array<real>)
    requires |f| < |y| || (0 < |f| && |f| == |y|)
    requires a != null ==> a.Length == |f| + 1
    modifies a
    ensures a != null ==> b == a
    ensures a == null ==> fresh(b)
    ensures b.Length == |f| + 1
    ensures forall i :: 0 <= i < |f| ==> b[i] == LiquidOutlet(y[i], f[i])
    ensures b[|f|] == y[|y| - 1]
  {
    var n := |f|;
    if a == null {
      b := new real[n + 1](i requires 0 <= i < n + 1 => if i < n then LiquidOutlet(y[i], f[i]) else y[|y| - 1]);
    } else {
      b := a;
      forall i | 0 <= i < n {
        b[i] := LiquidOutlet(y[i], f[i]);
      }
      b[n] := y[|y| - 1];
    }
  }

  /** numpy's `a[idx] = vals`, one assignment after the other. */
  method ScatterInto(a: array<real>, idx: seq<nat>, vals: seq<real>)
    requires |idx| == |vals| && forall j :: 0 <= j < |idx| ==> idx[j] < a.Length
    modifies a
    ensures a[..] == Scatter(old(a[..]), idx, vals, |idx|)
  {
    var k := 0;
    while k < |idx|
      invariant 0 <= k <= |idx|
      invariant a[..] == Scatter(old(a[..]), idx, vals, k)
    {
      a[idx[k]] := vals[k];
      k := k + 1;
    }
  }

  /** A stream array that is absent is allocated as zeros. */
  method ZerosIfAbsent(a: array?<real>, len: nat) returns (g: array<real>)
    requires a != null ==> a.Length == len
    ensures a != null ==> g == a
    ensures a == null ==> fresh(g) && g[..] == Zeros(len)
    ensures g.Length == len
  {
    if a == null {
      g := new real[len](i => 0.0);
    } else {
      g := a;
    }
  }

  /**
   * The gas projection of `_update_state` on the stream's array `g`: the
   * headspace cells written in order, then the first n cells converted
   * from M to mg/L of the measured unit.
   */
  method ProjectGas(g: array<real>, cmps: Components, idx: seq<nat>, vals: seq<real>, sVapor: real, qGas: real)
    requires cmps.Valid() && g.Length == |cmps.ids| + 1
    requires |idx| == |vals| && forall j :: 0 <= j < |idx| ==> idx[j] < |cmps.ids|
    modifies g
    ensures var cells := GasCells(old(g[..]), idx, vals, cmps.H2OIndex(), sVapor, qGas);
      && (forall i :: 0 <= i < |cmps.ids| ==> g[i] == GasOutlet(cells[i], cmps.chemMW[i], cmps.iMass[i]))
      && g[|cmps.ids|] == qGas
  {
    var n := |cmps.ids|;
    ScatterInto(g, idx, vals);
    g[cmps.H2OIndex()] := sVapor;
    g[n] := qGas;
    ghost var cells := g[..];
    assert cells == GasCells(old(g[..]), idx, vals, cmps.H2OIndex(), sVapor, qGas);
    forall i | 0 <= i < n {
      g[i] := GasOutlet(g[i], cmps.chemMW[i], cmps.iMass[i]);
    }
  }

  /** The stoichiometry and the rates the kinetics give at the state `qc`. */
  function Stoichiometry(o: Ode, qc: seq<real>, exo: seq<real>): seq<seq<real>>
    requires o.Compiled?
  {
    o.model.stoichio(KineticInput(o, qc, exo))
  }

  function Rates(o: Ode, qc: seq<real>, exo: seq<real>): seq<real>
    requires o.Compiled?
  {
    o.model.rates(KineticInput(o, qc, exo))
  }

  /** The liquid segment of `dy_dt`, written into the captured buffer. */
  method WriteLiquidSegment(o: Ode, qcIn: seq<real>, qc: seq<real>, m: seq<seq<real>>, rhos: seq<real>)
    requires o.Compiled? && o.dstate != null && |o.f| == o.nCmps && o.vLiq != 0.0
    requires o.nCmps <= o.dstate.Length && o.nCmps < |qc| && |qcIn| == o.nCmps + 1
    requires StoichShapeOk(m, rhos, o.nCmps)
    modifies o.dstate
    ensures forall i :: 0 <= i < o.nCmps ==>
      o.dstate[i] == LiquidDerivative(qcIn[o.nCmps], qcIn[i], qc[|qc| - 1], qc[i], o.f[i], o.vLiq, StoichTerm(m, rhos, i))
    ensures forall i :: o.nCmps <= i < o.dstate.Length ==> o.dstate[i] == old(o.dstate[i])
  {
    var n := o.nCmps;
    var qIn, q := qcIn[n], qc[|qc| - 1];
    forall i | 0 <= i < n {
      o.dstate[i] := LiquidDerivative(qIn, qcIn[i], q, qc[i], o.f[i], o.vLiq, StoichTerm(m, rhos, i));
    }
  }

  /** The headspace segment of `dy_dt`, written into the captured buffer. */
  method WriteGasSegment(o: Ode, qc: seq<real>, qGas: real, rhoG: seq<real>)
    requires o.Compiled? && o.dstate != null && o.vGas != 0.0
    requires o.nCmps + o.nGas < o.dstate.Length && o.nCmps + o.nGas <= |qc|
    requires |rhoG| == o.nGas && |o.conv| == o.nGas
    modifies o.dstate
    ensures forall j :: 0 <= j < o.nGas ==>
      o.dstate[o.nCmps + j] == GasDerivative(qGas, qc[o.nCmps + j], o.vGas, rhoG[j], o.vLiq, o.conv[j])
    ensures forall i :: 0 <= i < o.dstate.Length && !(o.nCmps <= i < o.nCmps + o.nGas) ==>
      o.dstate[i] == old(o.dstate[i])
  {
    var n := o.nCmps;
    forall j | 0 <= j < o.nGas {
      o.dstate[n + j] := GasDerivative(qGas, qc[n + j], o.vGas, rhoG[j], o.vLiq, o.conv[j]);
    }
  }

  class AnaerobicCSTR {
    const cmps: Components
    /** Liquid and headspace volumes [m3], operating temperature [K]. */
    const vLiq: real
    const vGas: real
    const T: real
    /** The saturated vapour pressure of water at T [bar]. */
    const pVapor: real
    /** `_f_retain`, one fraction per component. */
    const fRetain: seq<real>
    /** Whether exogenous variables are appended to the state for the kinetics. */
    const hasExo: bool
    const gas: OutletStream
    const liquid: OutletStream

    var model: Option<KineticModel>
    var layout: Layout
    /** `_P_gas` (`headspace_P`), `_P_atm` (`external_P`), `_k_p` (`pipe_resistance`). */
    var pGas: real
    var pAtm: real
    var kP: real
    var fixedPGas: bool
    var qGas: real
    /** `_concs`: initial concentrations [mg/L] that override the influent's. */
    var concs: Option<seq<real>>
    var state: array?<real>
    var dstate: array?<real>
    var ode: Option<Ode>

    ghost predicate Valid()
      reads this
    {
      && cmps.Valid() && |fRetain| == |cmps.ids|
      && vLiq > 0.0 && vGas > 0.0 && T > 0.0 && pVapor > 0.0
      && gas != liquid
      && layout.Consistent(|cmps.ids|)
      && (state != null ==> layout.stateKeys.Some?)
    }

    twostate predicate HeadspaceUnchanged()
      reads this
    {
      old(pGas) == pGas && old(pAtm) == pAtm && old(kP) == kP
      && old(fixedPGas) == fixedPGas && old(qGas) == qGas
    }

    twostate predicate BuffersUnchanged()
      reads this
    {
      old(concs) == concs && old(state) == state && old(dstate) == dstate && old(ode) == ode
    }

    constructor (
      cmps: Components, vLiq: real, vGas: real, model: Option<KineticModel>, T: real,
      headspaceP: real, externalP: real, pipeResistance: real, fixedHeadspaceP: bool,
      retainCmps: seq<string>, fractionRetain: real, pVapor: real, hasExo: bool)
      requires cmps.Valid() && vLiq > 0.0 && vGas > 0.0 && T > 0.0 && pVapor > 0.0
      requires model.Some? ==> forall id :: id in model.value.biogasIDs ==> id in cmps.ids
      ensures Valid() && this.model == model
      ensures model.None? ==> layout == Unbound
      ensures model.Some? ==> layout == BindModel(Unbound, cmps.ids, model.value.biogasIDs, pVapor, T).0
      ensures model.Some? ==> layout.Ready(|cmps.ids|)
      ensures this.fRetain == RetentionVector(cmps.ids, retainCmps, fractionRetain)
      ensures pGas == headspaceP && pAtm == externalP && kP == pipeResistance && fixedPGas == fixedHeadspaceP
      ensures qGas == 0.0 && concs.None? && state == null && dstate == null && ode.None?
      ensures fresh(gas) && fresh(liquid)
      ensures gas.state == null && gas.dstate == null && liquid.state == null && liquid.dstate == null
    {
      this.cmps := cmps;
      this.vLiq := vLiq;
      this.vGas := vGas;
      this.T := T;
      this.pVapor := pVapor;
      this.hasExo := hasExo;
      this.fRetain := RetentionVector(cmps.ids, retainCmps, fractionRetain);
      gas := new OutletStream();
      liquid := new OutletStream();
      qGas := 0.0;
      layout := Unbound;
      concs := None;
      state := null;
      dstate := null;
      ode := None;
      this.model := None;
      new;
      var _ := SetModel(model);
      pGas := headspaceP;
      pAtm := externalP;
      kP := pipeResistance;
      fixedPGas := fixedHeadspaceP;
    }

    /** The `model` setter: stores the model and, when there is one, binds its layout. */
    method SetModel(m: Option<KineticModel>) returns (r: Result<(), Error>)
      requires Valid()
      modifies this
      ensures Valid() && model == m && HeadspaceUnchanged() && BuffersUnchanged()
      ensures m.None? ==> r.Ok? && layout == old(layout)
      ensures m.Some? ==> (layout, r) == BindModel(old(layout), cmps.ids, m.value.biogasIDs, pVapor, T)
    {
      model := m;
      r := Ok(());
      if m.Some? {
        var bound := BindModel(layout, cmps.ids, m.value.biogasIDs, pVapor, T);
        layout := bound.0;
        r := bound.1;
      }
    }

    /** The `state` getter: the state keyed by the state keys, or `None` before any state is set. */
    function GetState(): (r: Option<map<string, real>>)
      requires state != null ==> layout.stateKeys.Some?
      reads this, state
      ensures r.None? <==> state == null
      ensures r.Some? ==> forall k :: k in r.value <==>
        k in layout.stateKeys.value[..Min(|layout.stateKeys.value|, state.Length)]
    {
      if state == null then None
      else
        ZipPrefixKeys(layout.stateKeys.value, state[..], Min(|layout.stateKeys.value|, state.Length));
        Some(ZipMap(layout.stateKeys.value, state[..]))
    }

    /** The `state` setter: a vector of the layout's length is stored as given; any other length is refused. */
    method SetState(arr: array<real>) returns (r: Result<(), Error>)
      requires Valid()
      modifies this
      ensures Valid() && model == old(model) && layout == old(layout) && HeadspaceUnchanged()
      ensures concs == old(concs) && dstate == old(dstate) && ode == old(ode)
      ensures layout.stateKeys.None? ==> r == Err(NoModel) && state == old(state)
      ensures layout.stateKeys.Some? && arr.Length != |layout.stateKeys.value| ==>
        r == Err(StateLengthMismatch(|layout.stateKeys.value|)) && state == old(state)
      ensures layout.stateKeys.Some? && arr.Length == |layout.stateKeys.value| ==> r == Ok(()) && state == arr
    {
      if layout.stateKeys.None? {
        return Err(NoModel);
      }
      var nState := |layout.stateKeys.value|;
      if arr.Length != nState {
        return Err(StateLengthMismatch(nState));
      }
      state := arr;
      r := Ok(());
    }

    /**
     * `_init_state`: the initial concentrations (`_concs`, else the
     * influent's `cIn`) in kg/m3, then a zero per biogas, then the influent
     * flow `qIn`; the derivative starts at zero. Both arrays are new.
     */
    method InitState(cIn: seq<real>, qIn: real) returns (r: Result<(), Error>)
      requires Valid()
      modifies this
      ensures Valid() && model == old(model) && layout == old(layout) && HeadspaceUnchanged()
      ensures concs == old(concs) && ode == old(ode)
      ensures layout.nGas.None? ==> r == Err(NoModel) && state == old(state) && dstate == old(dstate)
      ensures layout.nGas.Some? ==> r.Ok? && state != null && dstate != null && fresh(state) && fresh(dstate)
      ensures layout.nGas.Some? ==> var c := if concs.Some? then concs.value else cIn;
        && state.Length == |c| + layout.nGas.value + 1 && dstate.Length == state.Length
        && (forall i :: 0 <= i < |c| ==> state[i] == c[i] * 0.001)
        && (forall i :: |c| <= i < |c| + layout.nGas.value ==> state[i] == 0.0)
        && state[state.Length - 1] == qIn
        && (forall i :: 0 <= i < dstate.Length ==> dstate[i] == 0.0)
    {
      if layout.nGas.None? {
        return Err(NoModel);
      }
      var c := if concs.Some? then concs.value else cIn;
      var cs := Scale(c, 0.001);
      var ng := layout.nGas.value;
      state := new real[|cs| + ng + 1](i requires 0 <= i < |cs| + ng + 1 =>
        if i < |cs| then cs[i] else if i < |cs| + ng then 0.0 else qIn);
      dstate := new real[|cs| + ng + 1](i => 0.0);
      r := Ok(());
    }

    /**
     * `f_q_gas_fixed_P_headspace`: the biogas flow at the headspace pressure
     * `_P_gas`, stored in `_q_gas`.
     */
    method QGasFixedP(rhoTs: seq<real>, T: real) returns (r: Result<real, Error>)
      requires Valid() && layout.gasCmpIdx.Some?
      modifies this
      ensures Valid() && model == old(model) && layout == old(layout) && BuffersUnchanged()
      ensures pGas == old(pGas) && pAtm == old(pAtm) && kP == old(kP) && fixedPGas == old(fixedPGas)
      ensures r == FixedPressureGasFlow(rhoTs, GasConversion(cmps, layout.gasCmpIdx.value), T, pGas, pVapor, vLiq)
      ensures qGas == if r.Ok? then r.value else old(qGas)
    {
      var conv := GasConversion(cmps, layout.gasCmpIdx.value);
      r := FixedPressureGasFlow(rhoTs, conv, T, pGas, pVapor, vLiq);
      if r.Ok? {
        qGas := r.value;
      }
    }

    /**
     * `f_q_gas_var_P_headspace`: the headspace pressure from the biogas
     * concentrations, stored in `_P_gas`, and the flow through the gas pipe,
     * proportional to the excess over the external pressure, stored in `_q_gas`.
     */
    method QGasVarP(sGas: seq<real>, T: real) returns (q: real)
      requires Valid()
      modifies this
      ensures Valid() && model == old(model) && layout == old(layout) && BuffersUnchanged()
      ensures pAtm == old(pAtm) && kP == old(kP) && fixedPGas == old(fixedPGas)
      ensures pGas == HeadspacePressure(sGas, T, pVapor)
      ensures q == qGas && qGas == kP * (pGas - pAtm)
    {
      var p := HeadspacePressure(sGas, T, pVapor);
      pGas := p;
      qGas := kP * (p - pAtm);
      q := qGas;
    }

    /**
     * `_compile_ODE`: with a model, captures the derivative buffer, the
     * sizes, volumes, temperature, retention and gas conversion factors and
     * the headspace mode; without one, the generic CSTR's ODE.
     */
    method CompileOde()
      requires Valid()
      requires model.Some? ==> layout.nGas.Some? && layout.gasCmpIdx.Some?
      modifies this
      ensures Valid() && model == old(model) && layout == old(layout) && HeadspaceUnchanged()
      ensures concs == old(concs) && state == old(state) && dstate == old(dstate)
      ensures model.None? ==> ode == Some(Inherited)
      ensures model.Some? ==> ode == Some(Compiled(
        dstate, |cmps.ids|, layout.nGas.value, fRetain, vLiq, vGas, T,
        GasConversion(cmps, layout.gasCmpIdx.value), hasExo, fixedPGas, model.value))
    {
      if model.None? {
        ode := Some(Inherited);
        return;
      }
      var conv := GasConversion(cmps, layout.gasCmpIdx.value);
      ode := Some(Compiled(dstate, |cmps.ids|, layout.nGas.value, fRetain, vLiq, vGas, T,
        conv, hasExo, fixedPGas, model.value));
    }

    /** The `ODE` property: compiled on first use, then the same one every time. */
    method GetOde() returns (o: Ode)
      requires Valid()
      requires ode.None? && model.Some? ==> layout.nGas.Some? && layout.gasCmpIdx.Some?
      modifies this
      ensures Valid() && model == old(model) && layout == old(layout) && HeadspaceUnchanged()
      ensures concs == old(concs) && state == old(state) && dstate == old(dstate)
      ensures ode == Some(o)
      ensures old(ode).Some? ==> o == old(ode).value
    {
      if ode.None? {
        CompileOde();
      }
      o := ode.value;
    }

    /**
     * `_update_dstate`: projects the derivative buffer into the liquid
     * stream and gives the gas stream a zero derivative the first time.
     */
    method UpdateDstate()
      requires |fRetain| == |cmps.ids| && 0 < |cmps.ids| && gas != liquid
      requires dstate != null && dstate.Length >= |cmps.ids|
      requires liquid.dstate != null ==> liquid.dstate.Length == |cmps.ids| + 1 && liquid.dstate != dstate
      requires liquid.dstate != null && gas.dstate != null ==> liquid.dstate != gas.dstate
      modifies liquid, gas, liquid.dstate
      ensures liquid.state == old(liquid.state) && gas.state == old(gas.state)
      ensures liquid.dstate != null && gas.dstate != null
      ensures old(liquid.dstate) != null ==> liquid.dstate == old(liquid.dstate)
      ensures old(liquid.dstate) == null ==> fresh(liquid.dstate)
      ensures liquid.dstate.Length == |cmps.ids| + 1
      ensures forall i :: 0 <= i < |cmps.ids| ==> liquid.dstate[i] == LiquidOutlet(dstate[i], fRetain[i])
      ensures liquid.dstate[|cmps.ids|] == dstate[dstate.Length - 1]
      ensures old(gas.dstate) != null ==> gas.dstate == old(gas.dstate)
      ensures old(gas.dstate) == null ==> fresh(gas.dstate) && gas.dstate[..] == Zeros(|cmps.ids| + 1)
    {
      var dy := dstate[..];
      var projected := ProjectLiquid(liquid.dstate, dy, fRetain);
      liquid.dstate := projected;
      if gas.dstate == null {
        gas.dstate := new real[|cmps.ids| + 1](i => 0.0);
      }
    }

    /**
     * `_update_state`: projects the state into the liquid stream, and into
     * the gas stream the headspace concentrations at the biogas positions,
     * the water vapour at H2O and the biogas flow last, the first n cells
     * then converted from M to mg/L. Existing arrays are overwritten in place.
     */
    method UpdateState()
      requires Valid() && layout.Ready(|cmps.ids|) && state != null
      requires state.Length == |layout.stateKeys.value|
      requires liquid.state != null ==> liquid.state.Length == |cmps.ids| + 1 && liquid.state != state
      requires gas.state != null ==> gas.state.Length == |cmps.ids| + 1 && gas.state != state
      requires liquid.state != null && gas.state != null ==> liquid.state != gas.state
      modifies liquid, gas, liquid.state, gas.state
      ensures liquid.dstate == old(liquid.dstate) && gas.dstate == old(gas.dstate)
      ensures liquid.state != null && gas.state != null
      ensures old(liquid.state) != null ==> liquid.state == old(liquid.state)
      ensures old(liquid.state) == null ==> fresh(liquid.state)
      ensures old(gas.state) != null ==> gas.state == old(gas.state)
      ensures old(gas.state) == null ==> fresh(gas.state)
      ensures liquid.state.Length == |cmps.ids| + 1 && gas.state.Length == |cmps.ids| + 1
      ensures forall i :: 0 <= i < |cmps.ids| ==> liquid.state[i] == LiquidOutlet(old(state[..])[i], fRetain[i])
      ensures liquid.state[|cmps.ids|] == old(state[..])[state.Length - 1]
      ensures var n := |cmps.ids|;
        var cells := GasCells(
          if old(gas.state) == null then Zeros(n + 1) else old(gas.state[..]),
          layout.gasCmpIdx.value, old(state[..])[n..n + layout.nGas.value], cmps.H2OIndex(), layout.sVapor.value, qGas);
        && (forall i :: 0 <= i < n ==> gas.state[i] == GasOutlet(cells[i], cmps.chemMW[i], cmps.iMass[i]))
        && gas.state[n] == qGas
    {
      var n := |cmps.ids|;
      var y := state[..];
      var projected := ProjectLiquid(liquid.state, y, fRetain);
      liquid.state := projected;
      var g := ZerosIfAbsent(gas.state, n + 1);
      gas.state := g;
      ProjectGas(g, cmps, layout.gasCmpIdx.value, y[n..n + layout.nGas.value], layout.sVapor.value, qGas);
    }

    /**
     * `dy_dt(t, QC_ins, QC, dQC_ins)` of a compiled ODE, for the first inlet
     * row `qcIn`, the state `qc`, the inlet flow's derivative `dqcInLast`
     * and the exogenous values `exo`: the liquid segment, then the biogas
     * flow (which updates the headspace fields), then the headspace segment,
     * then the flow derivative, then the projection into the outlets. A
     * shape that numpy cannot combine stops it where numpy would raise.
     */
    method DyDt(o: Ode, qcIn: seq<real>, qc: seq<real>, dqcInLast: real, exo: seq<real>) returns (r: Result<(), Error>)
      requires Valid() && o.Compiled? && |o.f| == o.nCmps && o.vLiq != 0.0 && o.vGas != 0.0
      requires o.dstate != null && o.dstate.Length == o.nCmps + o.nGas + 1
      requires |qc| == o.nCmps + o.nGas + 1 && |qcIn| == o.nCmps + 1
      requires o.fixedP ==> layout.gasCmpIdx.Some?
      requires dstate != null && dstate.Length >= |cmps.ids|
      requires liquid.dstate != null ==>
        liquid.dstate.Length == |cmps.ids| + 1 && liquid.dstate != dstate && liquid.dstate != o.dstate
      requires liquid.dstate != null && gas.dstate != null ==> liquid.dstate != gas.dstate
      modifies this, o.dstate, liquid, gas, liquid.dstate
      ensures Valid() && model == old(model) && layout == old(layout) && BuffersUnchanged()
      ensures pAtm == old(pAtm) && kP == old(kP) && fixedPGas == old(fixedPGas)
      ensures var m, rhos := Stoichiometry(o, qc, exo), Rates(o, qc, exo);
        !StoichShapeOk(m, rhos, o.nCmps) ==>
          r == Err(ShapeMismatch) && o.dstate[..] == old(o.dstate[..]) && qGas == old(qGas) && pGas == old(pGas)
      ensures var m, rhos := Stoichiometry(o, qc, exo), Rates(o, qc, exo);
        StoichShapeOk(m, rhos, o.nCmps) ==> forall i :: 0 <= i < o.nCmps ==>
          o.dstate[i] == LiquidDerivative(qcIn[o.nCmps], qcIn[i], qc[|qc| - 1], qc[i], o.f[i], o.vLiq, StoichTerm(m, rhos, i))
      ensures var m, rhos := Stoichiometry(o, qc, exo), Rates(o, qc, exo);
        StoichShapeOk(m, rhos, o.nCmps) && o.fixedP ==>
          var q := FixedPressureGasFlow(LastThree(rhos), GasConversion(cmps, layout.gasCmpIdx.value), o.T, pGas, pVapor, vLiq);
          pGas == old(pGas) && qGas == (if q.Ok? then q.value else old(qGas)) && (q.Err? ==> r == Err(q.error))
      ensures var m, rhos := Stoichiometry(o, qc, exo), Rates(o, qc, exo);
        StoichShapeOk(m, rhos, o.nCmps) && !o.fixedP ==>
          pGas == HeadspacePressure(qc[o.nCmps..o.nCmps + o.nGas], o.T, pVapor) && qGas == kP * (pGas - pAtm)
      ensures r.Ok? ==> |LastThree(Rates(o, qc, exo))| == o.nGas && |o.conv| == o.nGas
      ensures r.Ok? ==> forall j :: 0 <= j < o.nGas ==>
        o.dstate[o.nCmps + j] == GasDerivative(qGas, qc[o.nCmps + j], o.vGas, LastThree(Rates(o, qc, exo))[j], o.vLiq, o.conv[j])
      ensures r.Ok? ==> o.dstate[o.nCmps + o.nGas] == dqcInLast
      ensures r.Err? ==> forall i :: o.nCmps <= i < o.dstate.Length ==> o.dstate[i] == old(o.dstate[i])
      ensures r.Err? ==> liquid.dstate == old(liquid.dstate) && gas.dstate == old(gas.dstate)
      ensures r.Ok? ==> liquid.dstate != null && gas.dstate != null && liquid.dstate.Length == |cmps.ids| + 1
      ensures r.Ok? ==> forall i :: 0 <= i < |cmps.ids| ==> liquid.dstate[i] == LiquidOutlet(dstate[i], fRetain[i])
      ensures r.Ok? ==> liquid.dstate[|cmps.ids|] == dstate[dstate.Length - 1]
      ensures liquid.state == old(liquid.state) && gas.state == old(gas.state)
      ensures r.Ok? && old(gas.dstate) != null ==> gas.dstate == old(gas.dstate)
      ensures r.Ok? && old(gas.dstate) == null ==> fresh(gas.dstate) && gas.dstate[..] == Zeros(|cmps.ids| + 1)
    {
      var n, ng := o.nCmps, o.nGas;
      var x := KineticInput(o, qc, exo);
      var m := o.model.stoichio(x);
      var rhos := o.model.rates(x);
      if !StoichShapeOk(m, rhos, n) {
        r := Err(ShapeMismatch);
      } else {
        WriteLiquidSegment(o, qcIn, qc, m, rhos);
        r := GasPhase(o, qc, LastThree(rhos), dqcInLast);
        if r.Ok? {
          UpdateDstate();
        }
      }
    }

    /** The headspace half of `dy_dt`: the gas flow from the bound closure, then the gas and flow cells. */
    method GasPhase(o: Ode, qc: seq<real>, rhoG: seq<real>, dqcInLast: real) returns (r: Result<(), Error>)
      requires Valid() && o.Compiled? && o.vGas != 0.0
      requires o.dstate != null && o.dstate.Length == o.nCmps + o.nGas + 1 && |qc| == o.nCmps + o.nGas + 1
      requires o.fixedP ==> layout.gasCmpIdx.Some?
      modifies this, o.dstate
      ensures Valid() && model == old(model) && layout == old(layout) && BuffersUnchanged()
      ensures pAtm == old(pAtm) && kP == old(kP) && fixedPGas == old(fixedPGas)
      ensures o.fixedP ==>
        var q := FixedPressureGasFlow(rhoG, GasConversion(cmps, layout.gasCmpIdx.value), o.T, pGas, pVapor, vLiq);
        pGas == old(pGas) && qGas == (if q.Ok? then q.value else old(qGas)) && (q.Err? ==> r == Err(q.error))
      ensures !o.fixedP ==>
        pGas == HeadspacePressure(qc[o.nCmps..o.nCmps + o.nGas], o.T, pVapor) && qGas == kP * (pGas - pAtm)
      ensures r.Ok? ==> |rhoG| == o.nGas && |o.conv| == o.nGas
      ensures r.Ok? ==> forall j :: 0 <= j < o.nGas ==>
        o.dstate[o.nCmps + j] == GasDerivative(qGas, qc[o.nCmps + j], o.vGas, rhoG[j], o.vLiq, o.conv[j])
      ensures r.Ok? ==> o.dstate[o.nCmps + o.nGas] == dqcInLast
      ensures forall i :: 0 <= i < o.nCmps ==> o.dstate[i] == old(o.dstate[i])
      ensures r.Err? ==> o.dstate[..] == old(o.dstate[..])
    {
      var n, ng := o.nCmps, o.nGas;
      var flow: Result<real, Error>;
      if o.fixedP {
        flow := QGasFixedP(rhoG, o.T);
      } else {
        var q := QGasVarP(qc[n..n + ng], o.T);
        flow := Ok(q);
      }
      if flow.Err? {
        r := Err(flow.error);
      } else if |rhoG| != ng || |o.conv| != ng {
        r := Err(ShapeMismatch);
      } else {
        WriteGasSegment(o, qc, flow.value, rhoG);
        o.dstate[n + ng] := dqcInLast;
        r := Ok(());
      }
    }
  }
}
