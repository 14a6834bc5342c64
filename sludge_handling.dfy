/**
 * Sludge handling units (qsdsan/sanunits/_sludge_handling.py): the
 * solids/solubles partition of the components, the split step that sends
 * every solid to the sludge and divides every soluble by a split fraction,
 * the moisture residual the root search drives to zero, and the belt
 * thickener's count, cost and power.
 *
 * Streams are reduced to their per-component mass flows (`imass`), kept in
 * a map from component ID to flow.
 */
module SludgeHandling {
  import opened Wrappers

  datatype Error =
    | UndefinedChemical(id: string)
    /** The moisture quotient is 0/0 or x/0: numpy gives NaN or infinity instead of a number. */
    | NonFiniteMoisture
    | DivisionByZero

  /** The ID of the water component, looked up by the moisture residual. */
  const WaterID := "Water"

  // ---------------------------------------------------------------------
  // The solids/solubles partition
  // ---------------------------------------------------------------------

  /** `solids or cmps.solids`: an empty tuple of solids falls back to the components' default. */
  function ChooseSolids(solids: seq<string>, defaultSolids: seq<string>): (r: seq<string>)
    ensures solids != [] ==> r == solids
    ensures solids == [] ==> r == defaultSolids
  {
    if solids != [] then solids else defaultSolids
  }

  /** The IDs of the components that are not solids, in component order. */
  function Solubles(cmps: seq<string>, solids: seq<string>): (r: seq<string>)
    ensures forall id :: id in r <==> id in cmps && id !in solids
    ensures |r| <= |cmps|
  {
    if cmps == [] then []
    else (if cmps[0] in solids then [] else [cmps[0]]) + Solubles(cmps[1..], solids)
  }

  /** The IDs of the components that are solids, in component order. */
  function SolidsAmong(cmps: seq<string>, solids: seq<string>): (r: seq<string>)
    ensures forall id :: id in r <==> id in cmps && id in solids
  {
    if cmps == [] then []
    else (if cmps[0] in solids then [cmps[0]] else []) + SolidsAmong(cmps[1..], solids)
  }

  /**
   * The first of `ids` that is not a component: the ID an indexer over the
   * components rejects, as `copy_flow` does for a solid nobody defined.
   */
  function FirstUndefined(ids: seq<string>, cmps: seq<string>): (r: Option<string>)
    ensures r.None? <==> forall id :: id in ids ==> id in cmps
    ensures r.Some? ==> r.value in ids && r.value !in cmps
    ensures r.Some? ==> exists j :: 0 <= j < |ids| && ids[j] == r.value && forall i :: 0 <= i < j ==> ids[i] in cmps
  {
    if ids == [] then None
    else if ids[0] !in cmps then Some(ids[0])
    else
      var rest := FirstUndefined(ids[1..], cmps);
      assert forall id :: id in ids[1..] ==> id in ids;
      assert rest.None? ==> forall id :: id in ids ==> id in cmps by {
        if rest.None? {
          forall id | id in ids ensures id in cmps {
            if id != ids[0] { assert id in ids[1..]; }
          }
        }
      }
      if rest.Some? then
        var j :| 0 <= j < |ids[1..]| && ids[1..][j] == rest.value && forall i :: 0 <= i < j ==> ids[1..][i] in cmps;
        assert ids[j + 1] == rest.value && forall i :: 0 <= i < j + 1 ==> ids[i] in cmps;
        rest
      else rest
  }

  /** Filtering keeps component order: the solubles of a concatenation are the concatenated solubles. */
  lemma {:induction false} SolublesAppend(a: seq<string>, b: seq<string>, solids: seq<string>)
    ensures Solubles(a + b, solids) == Solubles(a, solids) + Solubles(b, solids)
  {
    if a != [] {
      var ab := a + b;
      var head := if a[0] in solids then [] else [a[0]];
      assert ab[0] == a[0] && ab[1..] == a[1..] + b;
      SolublesAppend(a[1..], b, solids);
      assert Solubles(ab, solids) == head + Solubles(ab[1..], solids);
      assert Solubles(a, solids) == head + Solubles(a[1..], solids);
    } else {
      assert a + b == b;
    }
  }

  /** Solubles and solids split the components: every component lands in exactly one of them, once. */
  lemma {:induction false} SolublesPartition(cmps: seq<string>, solids: seq<string>)
    ensures multiset(Solubles(cmps, solids)) + multiset(SolidsAmong(cmps, solids)) == multiset(cmps)
  {
    if cmps != [] {
      var x, rest := cmps[0], cmps[1..];
      SolublesPartition(rest, solids);
      assert cmps == [x] + rest;
      assert multiset(cmps) == multiset{x} + multiset(rest);
      if x in solids {
        assert Solubles(cmps, solids) == Solubles(rest, solids);
        assert SolidsAmong(cmps, solids) == [x] + SolidsAmong(rest, solids);
        assert multiset(SolidsAmong(cmps, solids)) == multiset{x} + multiset(SolidsAmong(rest, solids));
      } else {
        assert Solubles(cmps, solids) == [x] + Solubles(rest, solids);
        assert SolidsAmong(cmps, solids) == SolidsAmong(rest, solids);
        assert multiset(Solubles(cmps, solids)) == multiset{x} + multiset(Solubles(rest, solids));
      }
    }
  }

  // ---------------------------------------------------------------------
  // Mass flows
  // ---------------------------------------------------------------------

  predicate Covers(flows: map<string, real>, ids: seq<string>)
  {
    forall id :: id in ids ==> id in flows
  }

  /** Every flow map in `ins` has an entry for each of `ids`. */
  predicate AllCover(ins: seq<map<string, real>>, ids: seq<string>)
  {
    forall k, id :: 0 <= k < |ins| && id in ids ==> id in ins[k]
  }

  /** The sum of `flows` over `ids`: `F_mass` when `ids` are all the stream's components. */
  function Total(flows: map<string, real>, ids: seq<string>): real
    requires Covers(flows, ids)
  {
    if ids == [] then 0.0 else flows[ids[0]] + Total(flows, ids[1..])
  }

  /** Totals add up when the flows do, component by component. */
  lemma {:induction false} TotalAdd(a: map<string, real>, b: map<string, real>, c: map<string, real>, ids: seq<string>)
    requires Covers(a, ids) && Covers(b, ids) && Covers(c, ids)
    requires forall id :: id in ids ==> a[id] + b[id] == c[id]
    ensures Total(a, ids) + Total(b, ids) == Total(c, ids)
  {
    if ids != [] {
      TotalAdd(a, b, c, ids[1..]);
    }
  }

  /** With non-negative flows, one component's flow is at most the total. */
  lemma {:induction false} TotalAtLeastEntry(flows: map<string, real>, ids: seq<string>, id: string)
    requires Covers(flows, ids) && id in ids
    requires forall k :: k in ids ==> flows[k] >= 0.0
    ensures 0.0 <= flows[id] <= Total(flows, ids)
  {
    if ids[0] != id {
      TotalAtLeastEntry(flows, ids[1..], id);
    } else if ids[1..] != [] {
      TotalNonNegative(flows, ids[1..]);
    }
  }

  lemma {:induction false} TotalNonNegative(flows: map<string, real>, ids: seq<string>)
    requires Covers(flows, ids)
    requires forall k :: k in ids ==> flows[k] >= 0.0
    ensures Total(flows, ids) >= 0.0
  {
    if ids != [] {
      TotalNonNegative(flows, ids[1..]);
    }
  }

  /** `mix_from`: the mixed flow of each component is the sum of the inlets' flows of it. */
  function MixedFlow(ins: seq<map<string, real>>, id: string): real
    requires forall k :: 0 <= k < |ins| ==> id in ins[k]
  {
    if ins == [] then 0.0 else ins[0][id] + MixedFlow(ins[1..], id)
  }

  function Mix(ins: seq<map<string, real>>, cmps: seq<string>): (m: map<string, real>)
    requires AllCover(ins, cmps)
    ensures forall id :: id in m <==> id in cmps
    ensures forall id :: id in cmps ==> m[id] == MixedFlow(ins, id)
  {
    map id | id in cmps :: MixedFlow(ins, id)
  }

  /** The sum of the inlets' totals. */
  function InletTotal(ins: seq<map<string, real>>, ids: seq<string>): real
    requires AllCover(ins, ids)
  {
    if ins == [] then 0.0 else Total(ins[0], ids) + InletTotal(ins[1..], ids)
  }

  lemma {:induction false} InletTotalCons(ins: seq<map<string, real>>, ids: seq<string>)
    requires ids != []
    requires AllCover(ins, ids)
    ensures ids[0] in ids && AllCover(ins, ids[1..])
    ensures InletTotal(ins, ids) == MixedFlow(ins, ids[0]) + InletTotal(ins, ids[1..])
  {
    assert forall id :: id in ids[1..] ==> id in ids;
    if ins != [] {
      InletTotalCons(ins[1..], ids);
    }
  }

  lemma {:induction false} MixTotalOver(ins: seq<map<string, real>>, cmps: seq<string>, ids: seq<string>)
    requires AllCover(ins, cmps)
    requires forall id :: id in ids ==> id in cmps
    ensures AllCover(ins, ids)
    ensures Total(Mix(ins, cmps), ids) == InletTotal(ins, ids)
  {
    if ids == [] {
      InletTotalZero(ins);
    } else {
      MixTotalOver(ins, cmps, ids[1..]);
      InletTotalCons(ins, ids);
    }
  }

  lemma {:induction false} InletTotalZero(ins: seq<map<string, real>>)
    ensures InletTotal(ins, []) == 0.0
  {
    if ins != [] {
      InletTotalZero(ins[1..]);
    }
  }

  /** Mixing conserves mass: the mixed stream carries the inlets' total mass flow. */
  lemma MixConservesMass(ins: seq<map<string, real>>, cmps: seq<string>)
    requires AllCover(ins, cmps)
    ensures Total(Mix(ins, cmps), cmps) == InletTotal(ins, cmps)
  {
    MixTotalOver(ins, cmps, cmps);
  }

  // ---------------------------------------------------------------------
  // The split step and the moisture residual
  // ---------------------------------------------------------------------

  /**
   * The effluent's flow of a component after the split step: `split` of each
   * soluble, while a solid keeps the flow `before` the effluent already had,
   * since only the solubles are written to it.
   */
  function EffluentFlow(mixed: real, isSolid: bool, split: real, before: real): real
  {
    if isSolid then before else mixed * split
  }

  /** The sludge's flow of a component after the split step: every solid, the rest of each soluble. */
  function SludgeFlow(mixed: real, isSolid: bool, split: real): real
  {
    if isSolid then mixed else mixed - mixed * split
  }

  /**
   * Per component, what the split sends to effluent and sludge is what was
   * mixed: the two outlets together hold the mixed flow plus, for a solid,
   * the flow the effluent held before. Neither goes negative.
   */
  lemma SplitConserves(mixed: real, isSolid: bool, split: real, before: real)
    ensures EffluentFlow(mixed, isSolid, split, before) + SludgeFlow(mixed, isSolid, split)
      == mixed + (if isSolid then before else 0.0)
    ensures mixed >= 0.0 && before >= 0.0 && 0.0 <= split <= 1.0 ==>
      EffluentFlow(mixed, isSolid, split, before) >= 0.0 && SludgeFlow(mixed, isSolid, split) >= 0.0
  {
    if mixed >= 0.0 && 0.0 <= split <= 1.0 {
      MulBetween(mixed, split);
    }
  }

  lemma MulBetween(x: real, split: real)
    requires x >= 0.0 && 0.0 <= split <= 1.0
    ensures 0.0 <= x * split <= x
  {
  }

  /** The flows of `ids`, and zero for every other component. */
  function Only(flows: map<string, real>, ids: seq<string>): (r: map<string, real>)
    ensures forall id :: id in r <==> id in flows
  {
    map id | id in flows :: if id in ids then flows[id] else 0.0
  }

  /**
   * The split step conserves mass, summed over all components: effluent and
   * sludge together carry the mixed total plus the solids the effluent held
   * before (none, for a fresh effluent).
   */
  lemma SplitConservesMass(mixed: map<string, real>, eff0: map<string, real>, eff: map<string, real>,
                           sludge: map<string, real>, cmps: seq<string>, solids: seq<string>, split: real)
    requires Covers(mixed, cmps) && Covers(eff0, cmps) && Covers(eff, cmps) && Covers(sludge, cmps)
    requires forall id :: id in cmps ==> eff[id] == EffluentFlow(mixed[id], id in solids, split, eff0[id])
    requires forall id :: id in cmps ==> sludge[id] == SludgeFlow(mixed[id], id in solids, split)
    ensures Total(eff, cmps) + Total(sludge, cmps) == Total(mixed, cmps) + Total(Only(eff0, solids), cmps)
  {
    var kept := Only(eff0, solids);
    var both := map id | id in cmps :: mixed[id] + kept[id];
    forall id | id in cmps
      ensures eff[id] + sludge[id] == both[id]
    {
      SplitConserves(mixed[id], id in solids, split, eff0[id]);
    }
    TotalAdd(eff, sludge, both, cmps);
    TotalAdd(mixed, kept, both, cmps);
  }

  /** `sludge.imass['Water'] / sludge.F_mass - target_mc` */
  function MoistureResidual(flows: map<string, real>, cmps: seq<string>, targetMc: real): (r: Result<real, Error>)
    requires Covers(flows, cmps)
    ensures r == Err(UndefinedChemical(WaterID)) <==> WaterID !in cmps
    ensures r == Err(NonFiniteMoisture) <==> WaterID in cmps && Total(flows, cmps) == 0.0
  {
    if WaterID !in cmps then Err(UndefinedChemical(WaterID))
    else if Total(flows, cmps) == 0.0 then Err(NonFiniteMoisture)
    else Ok(flows[WaterID] / Total(flows, cmps) - targetMc)
  }

  /** With non-negative flows the residual lies in [-target, 1 - target]: the moisture is a fraction. */
  lemma MoistureResidualBounds(flows: map<string, real>, cmps: seq<string>, targetMc: real)
    requires Covers(flows, cmps)
    requires forall k :: k in cmps ==> flows[k] >= 0.0
    requires MoistureResidual(flows, cmps, targetMc).Ok?
    ensures -targetMc <= MoistureResidual(flows, cmps, targetMc).value <= 1.0 - targetMc
  {
    TotalAtLeastEntry(flows, cmps, WaterID);
    var t := Total(flows, cmps);
    assert flows[WaterID] / t <= 1.0 by {
      assert flows[WaterID] <= t;
    }
  }

  /** The residual is zero exactly when the sludge's water fraction is the target. */
  lemma MoistureResidualZero(flows: map<string, real>, cmps: seq<string>, targetMc: real)
    requires Covers(flows, cmps)
    requires MoistureResidual(flows, cmps, targetMc).Ok?
    ensures MoistureResidual(flows, cmps, targetMc).value == 0.0
      <==> flows[WaterID] == targetMc * Total(flows, cmps)
  {
    QuotientIs(flows[WaterID], Total(flows, cmps), targetMc);
  }

  lemma QuotientIs(x: real, t: real, c: real)
    requires t != 0.0
    ensures x / t - c == 0.0 <==> x == c * t
  {
    assert (x / t) * t == x;
  }

  // ---------------------------------------------------------------------
  // Assigning the flows of some components
  // ---------------------------------------------------------------------

  /** `base[ids] = src[ids]`: the flows of `ids` are copied, the others stay. */
  function Overwrite(base: map<string, real>, src: map<string, real>, ids: seq<string>): map<string, real>
  {
    base + map id | id in ids && id in src :: src[id]
  }

  /** `base[ids] = 0`: the flows of `ids` are cleared, the others stay. */
  function Zeroed(base: map<string, real>, ids: seq<string>): map<string, real>
  {
    base + map id | id in ids :: 0.0
  }

  /** `base[ids] = src[ids] * split`: the flows of `ids` are scaled copies, the others stay. */
  function AssignScaled(base: map<string, real>, src: map<string, real>, ids: seq<string>, split: real)
    : map<string, real>
  {
    base + map id | id in ids && id in src :: src[id] * split
  }

  /** `base[ids] = a[ids] - b[ids]`: the flows of `ids` are differences, the others stay. */
  function AssignDifference(base: map<string, real>, a: map<string, real>, b: map<string, real>, ids: seq<string>)
    : map<string, real>
  {
    base + map id | id in ids && id in a && id in b :: a[id] - b[id]
  }

  lemma OverwriteAt(base: map<string, real>, src: map<string, real>, ids: seq<string>, id: string)
    requires id in base && (id in ids ==> id in src)
    ensures id in Overwrite(base, src, ids)
    ensures Overwrite(base, src, ids)[id] == if id in ids then src[id] else base[id]
  {
  }

  lemma ZeroedAt(base: map<string, real>, ids: seq<string>, id: string)
    requires id in base
    ensures id in Zeroed(base, ids)
    ensures Zeroed(base, ids)[id] == if id in ids then 0.0 else base[id]
  {
  }

  lemma AssignScaledAt(base: map<string, real>, src: map<string, real>, ids: seq<string>, split: real, id: string)
    requires id in base && (id in ids ==> id in src)
    ensures id in AssignScaled(base, src, ids, split)
    ensures AssignScaled(base, src, ids, split)[id] == if id in ids then src[id] * split else base[id]
  {
  }

  lemma AssignDifferenceAt(base: map<string, real>, a: map<string, real>, b: map<string, real>, ids: seq<string>,
                           id: string)
    requires id in base && (id in ids ==> id in a && id in b)
    ensures id in AssignDifference(base, a, b, ids)
    ensures AssignDifference(base, a, b, ids)[id] == if id in ids then a[id] - b[id] else base[id]
  {
  }

  /** A stream, reduced to the mass flows of its components. */
  class Stream {
    const chemicals: seq<string>
    var imass: map<string, real>

    ghost predicate Valid()
      reads this
    {
      forall id :: id in imass <==> id in chemicals
    }

    /** An empty stream. */
    constructor (chemicals: seq<string>)
      ensures Valid() && this.chemicals == chemicals
      ensures forall id :: id in chemicals ==> imass[id] == 0.0
    {
      this.chemicals := chemicals;
      imass := map id | id in chemicals :: 0.0;
    }

    /** `F_mass` */
    function FMass(): real
      reads this
      requires Valid()
    {
      Total(imass, chemicals)
    }

    /** `mix_from`: every component's flow becomes the sum of the inlets' flows of it. */
    method MixFrom(ins: seq<map<string, real>>)
      requires Valid() && AllCover(ins, chemicals)
      modifies this
      ensures Valid()
      ensures imass == Mix(ins, chemicals)
    {
      imass := Mix(ins, chemicals);
    }

    /**
     * `copy_flow(other, ids, remove)`: this stream takes `other`'s flows of
     * `ids`, and with `remove` those flows of `other` become zero. Flows of
     * other components are left alone on both sides.
     */
    method CopyFlow(other: Stream, ids: seq<string>, remove: bool)
      requires Valid() && other.Valid() && other != this
      requires forall id :: id in ids ==> id in chemicals && id in other.chemicals
      modifies if remove then {this, other} else {this}
      ensures Valid() && other.Valid()
      ensures imass == Overwrite(old(imass), old(other.imass), ids)
      ensures other.imass == if remove then Zeroed(old(other.imass), ids) else old(other.imass)
    {
      imass := Overwrite(imass, other.imass, ids);
      if remove {
        other.imass := Zeroed(other.imass, ids);
      }
    }
  }

  /**
   * `_mc_at_split`: the effluent takes `split` of every soluble of the mixed
   * stream, the sludge the rest, and the result is the sludge's moisture
   * residual. Flows of other components are left alone.
   */
  method McAtSplit(split: real, solubles: seq<string>, mixed: Stream, eff: Stream, sludge: Stream, targetMc: real)
    returns (r: Result<real, Error>)
    requires mixed.Valid() && eff.Valid() && sludge.Valid()
    requires mixed != eff && mixed != sludge && eff != sludge
    requires forall id :: id in solubles ==> id in mixed.imass && id in eff.imass && id in sludge.imass
    modifies eff, sludge
    ensures eff.Valid() && sludge.Valid()
    ensures eff.imass == AssignScaled(old(eff.imass), mixed.imass, solubles, split)
    ensures sludge.imass == AssignDifference(old(sludge.imass), mixed.imass, eff.imass, solubles)
    ensures r == MoistureResidual(sludge.imass, sludge.chemicals, targetMc)
  {
    eff.imass := AssignScaled(eff.imass, mixed.imass, solubles, split);
    sludge.imass := AssignDifference(sludge.imass, mixed.imass, eff.imass, solubles);
    r := MoistureResidual(sludge.imass, sludge.chemicals, targetMc);
  }

  /**
   * `SludgeHandling`: the 0th outlet is the effluent, the 1st the sludge,
   * and `mixed` is the unit's own copy of the mixed inlets.
   */
  class SludgeHandlingUnit {
    const cmps: seq<string>
    const solids: seq<string>
    const solubles: seq<string>
    var sludgeMoisture: real
    const mixed: Stream
    const eff: Stream
    const sludge: Stream

    ghost predicate Valid()
      reads this, mixed, eff, sludge
    {
      && (forall id :: id in solubles <==> id in cmps && id !in solids)
      && mixed != eff && mixed != sludge && eff != sludge
      && mixed.chemicals == cmps && eff.chemicals == cmps && sludge.chemicals == cmps
      && mixed.Valid() && eff.Valid() && sludge.Valid()
    }

    constructor (cmps: seq<string>, defaultSolids: seq<string>, solids: seq<string>, sludgeMoisture: real)
      ensures Valid()
      ensures this.cmps == cmps && this.solids == ChooseSolids(solids, defaultSolids)
      ensures this.solubles == Solubles(cmps, this.solids)
      ensures this.sludgeMoisture == sludgeMoisture
      ensures fresh(mixed) && fresh(eff) && fresh(sludge)
    {
      this.cmps := cmps;
      this.sludgeMoisture := sludgeMoisture;
      var s := ChooseSolids(solids, defaultSolids);
      this.solids := s;
      this.solubles := Solubles(cmps, s);
      mixed := new Stream(cmps);
      eff := new Stream(cmps);
      sludge := new Stream(cmps);
    }

    /**
     * `_run` on inlet flows `ins`, with `split` the fraction the root search
     * settles on inside its bracket: mix the inlets, move every solid from
     * the mixed stream to the sludge, copy the solubles to the effluent, then
     * divide them by `split`. The result is the moisture residual of that
     * final split. A solid that is not a component stops the run at the
     * first `copy_flow`, after the mixing and before either outlet changes.
     */
    method Run(ins: seq<map<string, real>>, split: real) returns (r: Result<real, Error>)
      requires Valid()
      requires AllCover(ins, cmps)
      requires 0.001 <= split <= 0.999
      modifies mixed, eff, sludge
      ensures Valid()
      ensures FirstUndefined(solids, cmps).Some? ==>
        && r == Err(UndefinedChemical(FirstUndefined(solids, cmps).value))
        && mixed.imass == Mix(ins, cmps)
        && eff.imass == old(eff.imass) && sludge.imass == old(sludge.imass)
      ensures FirstUndefined(solids, cmps).None? ==>
        && (forall id :: id in cmps ==>
              eff.imass[id] == EffluentFlow(MixedFlow(ins, id), id in solids, split, old(eff.imass[id])))
        && (forall id :: id in cmps ==> sludge.imass[id] == SludgeFlow(MixedFlow(ins, id), id in solids, split))
        && (forall id :: id in cmps ==> mixed.imass[id] == if id in solids then 0.0 else MixedFlow(ins, id))
        && r == MoistureResidual(sludge.imass, sludge.chemicals, sludgeMoisture)
    {
      var undefined := FirstUndefined(solids, cmps);
      if undefined.Some? {
        mixed.MixFrom(ins);
        return Err(UndefinedChemical(undefined.value));
      }
      r := RunDefined(ins, split);
    }

    /** `_run` once every solid is known to be a component. */
    method RunDefined(ins: seq<map<string, real>>, split: real) returns (r: Result<real, Error>)
      requires Valid()
      requires forall id :: id in solids ==> id in cmps
      requires AllCover(ins, cmps)
      requires 0.001 <= split <= 0.999
      modifies mixed, eff, sludge
      ensures Valid()
      ensures forall id :: id in cmps ==>
        eff.imass[id] == EffluentFlow(MixedFlow(ins, id), id in solids, split, old(eff.imass[id]))
      ensures forall id :: id in cmps ==> sludge.imass[id] == SludgeFlow(MixedFlow(ins, id), id in solids, split)
      ensures forall id :: id in cmps ==> mixed.imass[id] == if id in solids then 0.0 else MixedFlow(ins, id)
      ensures r == MoistureResidual(sludge.imass, sludge.chemicals, sludgeMoisture)
    {
      ghost var eff0, sludge0 := eff.imass, sludge.imass;
      mixed.MixFrom(ins);
      sludge.CopyFlow(mixed, solids, true);
      eff.CopyFlow(mixed, solubles, false);
      r := McAtSplit(split, solubles, mixed, eff, sludge, sludgeMoisture);
      RunFlows(ins, cmps, solids, solubles, split, eff0, sludge0);
    }
  }

  /** The flows `_run` leaves behind, step by step: the proof of `SludgeHandlingUnit.Run`. */
  lemma RunFlows(ins: seq<map<string, real>>, cmps: seq<string>, solids: seq<string>, solubles: seq<string>,
                 split: real, eff0: map<string, real>, sludge0: map<string, real>)
    requires forall id :: id in solubles <==> id in cmps && id !in solids
    requires AllCover(ins, cmps) && Covers(eff0, cmps) && Covers(sludge0, cmps)
    ensures var m := Mix(ins, cmps);
      var mixed := Zeroed(m, solids);
      var eff := AssignScaled(Overwrite(eff0, mixed, solubles), mixed, solubles, split);
      var sludge := AssignDifference(Overwrite(sludge0, m, solids), mixed, eff, solubles);
      forall id :: id in cmps ==>
        && id in eff && id in sludge && id in mixed
        && eff[id] == EffluentFlow(MixedFlow(ins, id), id in solids, split, eff0[id])
        && sludge[id] == SludgeFlow(MixedFlow(ins, id), id in solids, split)
        && mixed[id] == (if id in solids then 0.0 else MixedFlow(ins, id))
  {
    var m := Mix(ins, cmps);
    forall id | id in cmps
      ensures var mixed := Zeroed(m, solids);
        var eff := AssignScaled(Overwrite(eff0, mixed, solubles), mixed, solubles, split);
        var sludge := AssignDifference(Overwrite(sludge0, m, solids), mixed, eff, solubles);
        && id in eff && id in sludge && id in mixed
        && eff[id] == EffluentFlow(MixedFlow(ins, id), id in solids, split, eff0[id])
        && sludge[id] == SludgeFlow(MixedFlow(ins, id), id in solids, split)
        && mixed[id] == (if id in solids then 0.0 else MixedFlow(ins, id))
    {
      SplitFlowOf(m, solids, solubles, split, eff0, sludge0, id);
    }
  }

  /** The split step's flows of one component, from the mixed flows `m`. */
  lemma SplitFlowOf(m: map<string, real>, solids: seq<string>, solubles: seq<string>,
                    split: real, eff0: map<string, real>, sludge0: map<string, real>, id: string)
    requires id in m && id in eff0 && id in sludge0
    requires id in solubles <==> id !in solids
    ensures var mixed := Zeroed(m, solids);
      var eff := AssignScaled(Overwrite(eff0, mixed, solubles), mixed, solubles, split);
      var sludge := AssignDifference(Overwrite(sludge0, m, solids), mixed, eff, solubles);
      && id in eff && id in sludge && id in mixed
      && eff[id] == EffluentFlow(m[id], id in solids, split, eff0[id])
      && sludge[id] == SludgeFlow(m[id], id in solids, split)
      && mixed[id] == (if id in solids then 0.0 else m[id])
  {
    var mixed := Zeroed(m, solids);
    ZeroedAt(m, solids, id);
    var eff1 := Overwrite(eff0, mixed, solubles);
    OverwriteAt(eff0, mixed, solubles, id);
    var eff := AssignScaled(eff1, mixed, solubles, split);
    AssignScaledAt(eff1, mixed, solubles, split, id);
    var sludge1 := Overwrite(sludge0, m, solids);
    OverwriteAt(sludge0, m, solids, id);
    AssignDifferenceAt(sludge1, mixed, eff, solubles, id);
  }

  /** `math.ceil` */
  function Ceil(x: real): (n: int)
    ensures (n - 1) as real < x <= n as real
  {
    -((-x).Floor)
  }

  /** The ceiling is the least integer at or above `x`. */
  lemma CeilLeast(x: real, k: int)
    requires x <= k as real
    ensures Ceil(x) <= k
  {
  }

  /** `BeltThickener`: a sludge handling unit sized by hydraulic loading. */
  class BeltThickener {
    var maxCapacity: real
    var powerDemand: real
    var nThickener: int
    var purchaseCost: real
    var bareModuleFactor: real
    var powerRate: real

    constructor (maxCapacity: real, powerDemand: real)
      ensures this.maxCapacity == maxCapacity && this.powerDemand == powerDemand
    {
      this.maxCapacity := maxCapacity;
      this.powerDemand := powerDemand;
      nThickener := 0;
      purchaseCost := 0.0;
      bareModuleFactor := 0.0;
      powerRate := 0.0;
    }

    /**
     * `_design` for the volumetric flow `fVol` of the unit's mixed stream:
     * as many thickeners as the flow needs at `maxCapacity` each, 4000 USD and
     * `powerDemand` kW apiece, and a bare-module factor of 1.7.
     */
    method Design(fVol: real) returns (r: Result<int, Error>)
      modifies this
      ensures maxCapacity == old(maxCapacity) && powerDemand == old(powerDemand)
      ensures maxCapacity == 0.0 <==> r == Err(DivisionByZero)
      ensures maxCapacity == 0.0 ==> unchanged(this)
      ensures r.Ok? ==> r.value == nThickener == Ceil(fVol / maxCapacity)
      ensures r.Ok? ==> bareModuleFactor == 1.7
      ensures r.Ok? ==> purchaseCost == 4000.0 * nThickener as real
      ensures r.Ok? ==> powerRate == powerDemand * nThickener as real
    {
      if maxCapacity == 0.0 {
        return Err(DivisionByZero);
      }
      var n := Ceil(fVol / maxCapacity);
      nThickener := n;
      bareModuleFactor := 1.7;
      purchaseCost := 4000.0 * n as real;
      powerRate := powerDemand * n as real;
      r := Ok(n);
    }
  }

  /** Thickener count: enough thickeners for the flow, and one fewer would not do. */
  lemma ThickenerCount(fVol: real, maxCapacity: real)
    requires maxCapacity > 0.0 && fVol >= 0.0
    ensures var n := Ceil(fVol / maxCapacity);
      n >= 0 && fVol <= n as real * maxCapacity && (n >= 1 ==> (n - 1) as real * maxCapacity < fVol)
  {
    var q := fVol / maxCapacity;
    assert q * maxCapacity == fVol;
    ScaledCeil(q, maxCapacity, fVol, Ceil(q));
  }

  lemma ScaledCeil(q: real, c: real, f: real, n: int)
    requires c > 0.0 && q * c == f && (n - 1) as real < q <= n as real
    ensures (n - 1) as real * c < f <= n as real * c
  {
    calc {
      f;
    ==
      q * c;
    <= { MulLe(q, n as real, c); }
      n as real * c;
    }
    calc {
      (n - 1) as real * c;
    < { MulStrict((n - 1) as real, q, c); }
      q * c;
    ==
      f;
    }
  }

  lemma MulLe(a: real, b: real, c: real)
    requires a <= b && c > 0.0
    ensures a * c <= b * c
  {
  }

  lemma MulStrict(a: real, b: real, c: real)
    requires a < b && c > 0.0
    ensures a * c < b * c
  {
  }

  /** More flow never needs fewer thickeners. */
  lemma ThickenerCountMonotone(f1: real, f2: real, maxCapacity: real)
    requires maxCapacity > 0.0 && f1 <= f2
    ensures Ceil(f1 / maxCapacity) <= Ceil(f2 / maxCapacity)
  {
    assert f1 / maxCapacity <= f2 / maxCapacity;
    CeilLeast(f1 / maxCapacity, Ceil(f2 / maxCapacity));
  }
}
