# QSDsan core, modelled in Dafny

This project models four parts of QSDsan, a Python package for simulating sanitation and
resource-recovery systems, and proves properties of them. Each part has its own module.

- **`AnaerobicReactors`** (`anaerobic_reactors.dfy`): the anaerobic CSTR with a biogas headspace.
  - Its dynamic state is one flat vector: the liquid concentration of every component, then the
    headspace concentration of every biogas, then the liquid flow Q.
  - Binding a kinetic model fixes that layout (the state keys, the biogas positions, the water-vapour
    concentration from the ideal gas law).
  - The state setter checks the vector's length.
  - `_init_state` builds the first state.
  - The two headspace closures, fixed and variable pressure, compute the biogas flow and cache it in
    the reactor's fields.
  - The compiled `dy_dt` writes the derivative into a shared buffer, segment by segment.
  - `_update_state` and `_update_dstate` project state and derivative into the outlet streams. They
    allocate the stream arrays on the first call and overwrite them in place afterwards.
  - The reactor is a `class`, and the outlet streams are objects holding `array`s.
  - The layout fields the model setter assigns form one `Layout` value. It is computed by the pure
    function `BindModel`.
- **`ImpactIndicators`** (`impact_indicator.dfy`): the registry shared by all impact indicators.
  - It is one dictionary from IDs and synonyms to indicator objects.
  - The model keeps the dictionary's insertion order (`keys`) next to its contents (`entries`).
  - The invariant: keys are unique, and every registered indicator is also registered under its own
    ID.
- **`SludgeHandling`** (`sludge_handling.dfy`): the sludge handling units.
  - The solids/solubles partition of the components.
  - The split step: every solid goes to the sludge, and every soluble is divided by a split fraction.
  - The moisture residual that the root search drives to zero.
  - The belt thickener's count, cost and power.
  - Streams are reduced to their per-component mass flows.
- **`Stats`** (`stats.py` helpers): argument normalisation for the sensitivity analyses.
  - `_update_input`, `_update_nan` and `_update_df_names`.
  - The `kind` checks of `get_correlations` and `plot_sobol_results`.
  - The sample-batch arithmetic and convergence test of `morris_till_convergence`.

`Wrappers` (`wrappers.dfy`) holds `Option` for Python's `None` and `Result`, whose `Err` stands for a
raised exception.

Numbers are Dafny `real`s. The kinetic model (parameter evaluation, stoichiometry, rates), the
saturated vapour pressure of water, the exogenous variables, the influent stream and the root solver
are all inputs to the operations that use them.

One place where the code departs from its own design: `f_q_gas_fixed_P_headspace` reads
`self.P_gas`. The class defines that pressure as the `headspace_P` property, stored in `_P_gas`. The
model reads `_P_gas`, which is `AnaerobicCSTR.pGas`. A headspace pressure equal to the vapour
pressure divides by zero, and the model returns the `DivisionByZero` error for it.

## Model

| member | source | states |
|---|---|---|
| AnaerobicReactors.IdealGasLaw | qsdsan/sanunits/_anaerobic_reactors.py:324-329 | a pressure or concentration counts only when truthy; the result is `None` exactly when both are absent or zero; the call fails, with a division by zero, exactly when a non-zero pressure meets T = 0; a truthy pressure gives p/R/T whatever the concentration, else a truthy concentration gives S·R·T |
| AnaerobicReactors.ConcentrationRoundTrip | qsdsan/sanunits/_anaerobic_reactors.py:324-329 | for T > 0, a non-zero concentration S becomes S·R·T and converts back to S |
| AnaerobicReactors.PressureRoundTrip | qsdsan/sanunits/_anaerobic_reactors.py:324-329 | for T > 0, a non-zero pressure p becomes p/R/T and converts back to p |
| AnaerobicReactors.ZeroPressureFallsThrough | qsdsan/sanunits/_anaerobic_reactors.py:328-329 | a zero pressure is falsy: the call behaves as if no pressure were given |
| AnaerobicReactors.IndexOf | qsdsan/sanunits/_anaerobic_reactors.py:469 | `index` finds a position of the ID exactly when it is present, and that position is its first occurrence |
| AnaerobicReactors.Components.H2OIndex | qsdsan/sanunits/_anaerobic_reactors.py:469 | the H2O position is a component position holding "H2O" |
| AnaerobicReactors.Indices | qsdsan/sanunits/_anaerobic_reactors.py:374 | `indices` succeeds exactly when every biogas is a component; it then gives one position per biogas, pointing at that ID; otherwise it names a missing ID |
| AnaerobicReactors.GasKeysInjective | qsdsan/sanunits/_anaerobic_reactors.py:372 | two biogases with the same headspace key are the same biogas: the `_gas` suffix loses nothing, so distinct biogases never shadow each other in the state mapping |
| AnaerobicReactors.StateKeys | qsdsan/sanunits/_anaerobic_reactors.py:371-373 | n_cmps + n_gas + 1 keys: the component IDs, then the `_gas` keys, then "Q" |
| AnaerobicReactors.BindModel | qsdsan/sanunits/_anaerobic_reactors.py:364-375 | binding succeeds iff the vapour conversion does not divide by zero and every biogas is a component; it sets the vapour concentration, n_gas and the state keys, then biogas positions that point at their IDs; a failed lookup keeps the old positions; the layout stays consistent |
| AnaerobicReactors.RetentionExactlyRetained | qsdsan/sanunits/_anaerobic_reactors.py:321-322 | with a non-zero fraction, an entry equals the fraction iff its ID is retained, and is 0 iff it is not |
| AnaerobicReactors.ZipPrefixKeys | qsdsan/sanunits/_anaerobic_reactors.py:424 | `dict(zip(keys, vals))` has exactly the keys of the zipped prefix |
| AnaerobicReactors.ZipPrefixLookup | qsdsan/sanunits/_anaerobic_reactors.py:424 | a key maps to the value paired with its last occurrence |
| AnaerobicReactors.ZipMapLookup | qsdsan/sanunits/_anaerobic_reactors.py:424 | the state getter's mapping pairs each key, at its last occurrence, with its state entry |
| AnaerobicReactors.StoichTermAtRest | qsdsan/sanunits/_anaerobic_reactors.py:541-542 | with all rates zero, the `Mᵀ·rhos` production term of every component is zero |
| AnaerobicReactors.StoichTerm | qsdsan/sanunits/_anaerobic_reactors.py:541-542 | specification function: the `np.dot(M_stoichio.T, rhos)` production term of one component; StoichTermAtRest and DyDt state its use |
| AnaerobicReactors.LiquidDerivative | qsdsan/sanunits/_anaerobic_reactors.py:541-542 | specification function: the liquid balance (inflow less unretained outflow over V_liq, plus production); RetentionScalesOutflow, LiquidSteadyState and DyDt state its properties |
| AnaerobicReactors.RetentionScalesOutflow | qsdsan/sanunits/_anaerobic_reactors.py:541-542 | retention changes only the outflow term of the liquid derivative, raising it by exactly Q·S·f/V_liq |
| AnaerobicReactors.LiquidSteadyState | qsdsan/sanunits/_anaerobic_reactors.py:541-542 | without reactions, a liquid derivative is zero iff inflow equals the unretained outflow |
| AnaerobicReactors.GasBalance | qsdsan/sanunits/_anaerobic_reactors.py:544-545 | the headspace derivative times V_gas is production (rho·V_liq·conv) less outflow (q_gas·S) |
| AnaerobicReactors.GasDerivative | qsdsan/sanunits/_anaerobic_reactors.py:544-545 | specification function: the headspace balance of one biogas; GasBalance, GasPhase and DyDt state its properties |
| AnaerobicReactors.HeadspacePressure | qsdsan/sanunits/_anaerobic_reactors.py:497-498 | specification function: Σ S·R·T + p_vapor; HeadspacePressureOfTotal, HeadspaceOfNoGas, HeadspacePressureMonotone and QGasVarP state its properties |
| AnaerobicReactors.HeadspacePressureOfTotal | qsdsan/sanunits/_anaerobic_reactors.py:497-498 | the variable headspace pressure is the ideal-gas pressure of the total gas concentration plus the vapour pressure |
| AnaerobicReactors.SumPartialPressures | qsdsan/sanunits/_anaerobic_reactors.py:497-498 | the partial pressures sum to ΣS·(R·T) |
| AnaerobicReactors.HeadspaceOfNoGas | qsdsan/sanunits/_anaerobic_reactors.py:497-498 | with all headspace gas at zero, the pressure is the vapour pressure |
| AnaerobicReactors.HeadspacePressureMonotone | qsdsan/sanunits/_anaerobic_reactors.py:497-498 | more gas never lowers the headspace pressure (T ≥ 0) |
| AnaerobicReactors.FixedPressureGasFlow | qsdsan/sanunits/_anaerobic_reactors.py:489-494 | the fixed-pressure flow divides by zero iff the headspace pressure equals the vapour pressure, fails to combine iff rates and factors differ in length, and succeeds otherwise |
| AnaerobicReactors.FixedPressureGasFlowIsIdealGas | qsdsan/sanunits/_anaerobic_reactors.py:492-493 | the flow times (P − p_vapor) is R·T times the moles produced, V_liq·Σ rho·conv: the ideal gas law |
| AnaerobicReactors.Scatter | qsdsan/sanunits/_anaerobic_reactors.py:468 | fancy-index assignment keeps the array's length |
| AnaerobicReactors.ScatterUntouched | qsdsan/sanunits/_anaerobic_reactors.py:468 | a cell that no index names keeps its value |
| AnaerobicReactors.ScatterLastWins | qsdsan/sanunits/_anaerobic_reactors.py:468 | a cell named more than once holds the value of its last assignment |
| AnaerobicReactors.GasCells | qsdsan/sanunits/_anaerobic_reactors.py:466-470 | the gas cells before unit conversion have the stream's length |
| AnaerobicReactors.GasCellsWritten | qsdsan/sanunits/_anaerobic_reactors.py:466-470 | the last cell holds q_gas, the H2O cell the vapour concentration, each other biogas position its last headspace concentration, and every other cell keeps its value |
| AnaerobicReactors.LastThree | qsdsan/sanunits/_anaerobic_reactors.py:543 | `rhos[-3:]` is the last min(3, len) rates, in order |
| AnaerobicReactors.LiquidOutlet | qsdsan/sanunits/_anaerobic_reactors.py:461-465 | specification function: a state entry scaled to the outlet, y·(1−f)·1e3; ProjectLiquid, UpdateState and UpdateDstate state where it is written |
| AnaerobicReactors.GasOutlet | qsdsan/sanunits/_anaerobic_reactors.py:471 | specification function: a gas cell converted from M to mg/L, cell·chem_MW/i_mass·1e3; ProjectGas and UpdateState state where it is written |
| AnaerobicReactors.ProjectLiquid | qsdsan/sanunits/_anaerobic_reactors.py:461-465 | liquid cells are y·(1−f)·1e3, then the last cell of y; an existing array is written in place, a missing one is allocated |
| AnaerobicReactors.ScatterInto | qsdsan/sanunits/_anaerobic_reactors.py:468 | the in-place assignments leave the array equal to `Scatter` of its old contents |
| AnaerobicReactors.ZerosIfAbsent | qsdsan/sanunits/_anaerobic_reactors.py:466-467 | a missing gas array is a fresh array of n_cmps + 1 zeros; an existing one is kept |
| AnaerobicReactors.ProjectGas | qsdsan/sanunits/_anaerobic_reactors.py:466-471 | the gas array's first n cells are `GasCells` of its old contents, converted by chem_MW/i_mass·1e3; its last cell is q_gas |
| AnaerobicReactors.WriteLiquidSegment | qsdsan/sanunits/_anaerobic_reactors.py:541-542 | every liquid cell of the buffer becomes its liquid derivative; other cells are untouched |
| AnaerobicReactors.WriteGasSegment | qsdsan/sanunits/_anaerobic_reactors.py:544-545 | every headspace cell of the buffer becomes its gas derivative; other cells are untouched |
| AnaerobicReactors.AnaerobicCSTR.constructor | qsdsan/sanunits/_anaerobic_reactors.py:296-322 | q_gas starts at 0; the model is bound through the model setter; the pressures, pipe resistance and mode are stored; the retention vector is built; no state yet |
| AnaerobicReactors.AnaerobicCSTR.SetModel | qsdsan/sanunits/_anaerobic_reactors.py:364-375 | the model is stored; a bound model sets the layout as `BindModel` does, and nothing else changes |
| AnaerobicReactors.AnaerobicCSTR.GetState | qsdsan/sanunits/_anaerobic_reactors.py:418-424 | no state gives `None`; otherwise a mapping whose keys are exactly the zipped state keys |
| AnaerobicReactors.AnaerobicCSTR.SetState | qsdsan/sanunits/_anaerobic_reactors.py:426-432 | a vector of the key count is stored unchanged; any other length is refused and leaves the state as it was |
| AnaerobicReactors.AnaerobicCSTR.InitState | qsdsan/sanunits/_anaerobic_reactors.py:444-451 | without a bound model it fails and changes nothing; otherwise new arrays: state is C·1e-3 (from `_concs` if set, else the influent), then n_gas zeros, then Q_in; dstate is all zeros of that length |
| AnaerobicReactors.AnaerobicCSTR.QGasFixedP | qsdsan/sanunits/_anaerobic_reactors.py:489-494 | the result is `FixedPressureGasFlow` at the headspace pressure; a successful value is cached in `_q_gas`; the pressure is unchanged |
| AnaerobicReactors.AnaerobicCSTR.QGasVarP | qsdsan/sanunits/_anaerobic_reactors.py:496-500 | `_P_gas` becomes the headspace pressure of the gas concentrations, and `_q_gas` = k_p·(P − P_atm) is returned |
| AnaerobicReactors.AnaerobicCSTR.CompileOde | qsdsan/sanunits/_anaerobic_reactors.py:508-548 | without a model, the inherited ODE; with one, an ODE capturing the buffer, sizes, volumes, T, retention, conversion factors, exogenous flag and headspace mode |
| AnaerobicReactors.AnaerobicCSTR.GetOde | qsdsan/sanunits/_anaerobic_reactors.py:502-506 | the ODE is compiled on first use and the same one is returned afterwards |
| AnaerobicReactors.AnaerobicCSTR.UpdateDstate | qsdsan/sanunits/_anaerobic_reactors.py:473-486 | the liquid derivative is dstate·(1−f)·1e3, then the last cell, written in place if it exists; the gas derivative is allocated as zeros only the first time |
| AnaerobicReactors.AnaerobicCSTR.UpdateState | qsdsan/sanunits/_anaerobic_reactors.py:453-471 | the liquid state is y·(1−f)·1e3 then Q; the gas state is `GasCells` of its old contents (zeros if new), converted by chem_MW/i_mass·1e3, with q_gas last; existing arrays are reused |
| AnaerobicReactors.AnaerobicCSTR.DyDt | qsdsan/sanunits/_anaerobic_reactors.py:531-547 | each liquid cell is its `LiquidDerivative` with the `Mᵀ·rhos` production; the closure updates `_q_gas` and, with variable pressure, `_P_gas`; each gas cell is its `GasDerivative` with `rhos[-3:]`; the last cell is dQC_ins[-1]; the derivative is projected into the liquid stream; a mismatched shape fails before any write |
| AnaerobicReactors.AnaerobicCSTR.GasPhase | qsdsan/sanunits/_anaerobic_reactors.py:543-546 | the chosen closure's flow, then the gas cells and the flow cell; the liquid cells are untouched, and a failure writes nothing |
| ImpactIndicators.AppendNew | sanitation/_impact_indicator.py:90 | after a dictionary assignment the keys are the old keys plus the assigned one, still without repeats |
| ImpactIndicators.RegistersSynonym | sanitation/_impact_indicator.py:47 | specification predicate: a synonym is registered iff it is non-empty and not the text 'nan'; New states its effect |
| ImpactIndicators.KeysOf | sanitation/_impact_indicator.py:94 | exactly the keys whose value is the indicator, without repeats; KeysOfAppend gives their order |
| ImpactIndicators.KeysOfAppend | sanitation/_impact_indicator.py:94 | the comprehension keeps key order: the keys found in a + b are those found in a followed by those found in b |
| ImpactIndicators.OwnIdsAfterSynonym | sanitation/_impact_indicator.py:86-90 | assigning a free synonym, or one that already names the indicator, keeps every indicator registered under its own ID |
| ImpactIndicators.ImpactIndicator.constructor | sanitation/_impact_indicator.py:39-45 | the new object carries the given ID, unit, method, category and description |
| ImpactIndicators.Registry.constructor | sanitation/_impact_indicator.py:30-31 | the registry starts empty, with no default data |
| ImpactIndicators.Registry.GetSynonym | sanitation/_impact_indicator.py:92-94 | exactly the keys that map to the indicator, each once |
| ImpactIndicators.Registry.GetAllIndicators | sanitation/_impact_indicator.py:115-117 | exactly the distinct values of the registry |
| ImpactIndicators.Registry.SetSynonym | sanitation/_impact_indicator.py:86-90 | fails iff the synonym names another indicator, changing nothing; otherwise the synonym maps to the indicator; repeating it changes nothing |
| ImpactIndicators.Registry.New | sanitation/_impact_indicator.py:36-49 | a taken ID fails and changes nothing; otherwise a fresh indicator is registered under its ID; a non-empty, non-'nan' synonym is added, and a taken one fails after the ID was registered |
| ImpactIndicators.RowStep | sanitation/_impact_indicator.py:36-49 | one row's effect on the keys: a registered ID is skipped; otherwise it fails iff the synonym is registrable and already a key, with the synonym error; on success exactly the row's keys are added, without repeats |
| ImpactIndicators.LoadKeys | sanitation/_impact_indicator.py:102-111 | specification function: the rows' steps in table order, stopping at the first error; LoadKeysKeeps, LoadKeysFails and LoadsWithoutClash state its properties |
| ImpactIndicators.LoadKeysKeeps | sanitation/_impact_indicator.py:102-111 | a successful load keeps every earlier key, registers every row's ID and adds no repeats |
| ImpactIndicators.LoadKeysFails | sanitation/_impact_indicator.py:45-48 | a load fails only at a row whose ID is not a start key and whose registrable synonym is a start key or a key of an earlier row, and the error names that synonym |
| ImpactIndicators.LoadsWithoutClash | sanitation/_impact_indicator.py:102-111 | a table in which no new row registers a synonym already held loads without error |
| ImpactIndicators.Registry.LoadRow | sanitation/_impact_indicator.py:102-111 | a registered ID changes nothing; otherwise a fresh indicator holding the row's ID, unit, method, category and description is registered; it fails iff the ID is new and its registrable synonym is taken, with the synonym error; the keys follow RowStep |
| ImpactIndicators.Registry.LoadDefaultIndicators | sanitation/_impact_indicator.py:97-113 | the stored table, else the loaded one, is used; it fails iff LoadKeys does, with the same error; on success the keys are LoadKeys' keys, every row's ID is registered and the table is stored; existing entries are untouched; only row keys are added |
| ImpactIndicators.LoadStep | sanitation/_impact_indicator.py:102-112 | one row of the loader keeps "only the keys of the rows so far were added" |
| ImpactIndicators.RowKeysOfRows | sanitation/_impact_indicator.py:102-111 | the keys a table can add are exactly its rows' IDs and their registrable synonyms |
| ImpactIndicators.GetSynonymHasId | sanitation/_impact_indicator.py:92-94 | an indicator's own ID is always among its synonyms |
| ImpactIndicators.AllIndicatorsByOwnId | sanitation/_impact_indicator.py:115-117 | synonyms add no elements: the set of all indicators is the set under their own IDs |
| SludgeHandling.Solubles | qsdsan/sanunits/_sludge_handling.py:66 | an ID is soluble iff it is a component and not a solid |
| SludgeHandling.SolidsAmong | qsdsan/sanunits/_sludge_handling.py:65-66 | the components that are solids |
| SludgeHandling.SolublesAppend | qsdsan/sanunits/_sludge_handling.py:66 | the filter keeps component order |
| SludgeHandling.SolublesPartition | qsdsan/sanunits/_sludge_handling.py:65-66 | solubles and solids together are the components, as a multiset: each component in exactly one, once |
| SludgeHandling.MixConservesMass | qsdsan/sanunits/_sludge_handling.py:85 | the mixed stream's total flow is the inlets' total |
| SludgeHandling.MixedFlow | qsdsan/sanunits/_sludge_handling.py:85 | specification function: one component's flow summed over the inlets; Mix, MixFrom, Run and MixConservesMass state its use |
| SludgeHandling.SplitConserves | qsdsan/sanunits/_sludge_handling.py:74-75 | per component, effluent + sludge = mixed, plus the effluent's earlier flow for a solid (line 89 copies solubles only); both are non-negative for non-negative flows and 0 ≤ split ≤ 1 |
| SludgeHandling.SplitConservesMass | qsdsan/sanunits/_sludge_handling.py:74-75 | the split step conserves the total mass flow: effluent and sludge together hold the mixed total plus the solids the effluent already held |
| SludgeHandling.EffluentFlow | qsdsan/sanunits/_sludge_handling.py:74 | specification function: a solid leaves the effluent's earlier flow as it was, a soluble gives split·mixed; SplitConserves and Run state its properties |
| SludgeHandling.SludgeFlow | qsdsan/sanunits/_sludge_handling.py:75 | specification function: a solid sends all of its flow to the sludge, a soluble mixed − split·mixed; SplitConserves and Run state its properties |
| SludgeHandling.MoistureResidual | qsdsan/sanunits/_sludge_handling.py:76-77 | fails iff Water is not a component, or the sludge has no mass; otherwise Water/F_mass − target |
| SludgeHandling.MoistureResidualBounds | qsdsan/sanunits/_sludge_handling.py:76-77 | with non-negative flows the residual lies in [−target, 1 − target] |
| SludgeHandling.MoistureResidualZero | qsdsan/sanunits/_sludge_handling.py:76-77 | the residual is zero iff the sludge's water is the target fraction of its mass |
| SludgeHandling.OverwriteAt | qsdsan/sanunits/_sludge_handling.py:88-89 | `copy_flow` sets the listed components' flows and leaves the others |
| SludgeHandling.ZeroedAt | qsdsan/sanunits/_sludge_handling.py:88 | `remove=True` zeroes the listed components' flows and leaves the others |
| SludgeHandling.AssignScaledAt | qsdsan/sanunits/_sludge_handling.py:74 | each soluble's effluent flow is its mixed flow times the split; the others stay |
| SludgeHandling.AssignDifferenceAt | qsdsan/sanunits/_sludge_handling.py:75 | each soluble's sludge flow is mixed less effluent; the others stay |
| SludgeHandling.Stream.MixFrom | qsdsan/sanunits/_sludge_handling.py:85 | the stream's flows become the mix of the inlets |
| SludgeHandling.Stream.CopyFlow | qsdsan/sanunits/_sludge_handling.py:88-89 | this stream takes the other's flows of the IDs, and with `remove` those flows of the other become zero |
| SludgeHandling.Stream.FMass | qsdsan/sanunits/_sludge_handling.py:76 | specification function: `F_mass`, the total mass flow over the stream's chemicals; MoistureResidual divides by it |
| SludgeHandling.McAtSplit | qsdsan/sanunits/_sludge_handling.py:72-77 | the effluent gets split·mixed of every soluble, the sludge the rest, and the result is the sludge's moisture residual |
| SludgeHandling.FirstUndefined | qsdsan/sanunits/_sludge_handling.py:88 | none exactly when every solid is a component; otherwise the earliest solid that is not one |
| SludgeHandling.SludgeHandlingUnit.constructor | qsdsan/sanunits/_sludge_handling.py:58-69 | any solids are accepted; they fall back to the default when empty; solubles are the other components; the moisture target is stored |
| SludgeHandling.SludgeHandlingUnit.Run | qsdsan/sanunits/_sludge_handling.py:80-94 | a solid that is not a component fails the run, with the inlets mixed and both outlets untouched; otherwise every solid goes to the sludge, the effluent gets split·mixed of every soluble and keeps its earlier solid flows, the sludge gets the rest, and the result is the residual at that split |
| SludgeHandling.RunFlows | qsdsan/sanunits/_sludge_handling.py:84-89 | mixing, the solids transfer, the soluble copy and the split together give those flows for every component |
| SludgeHandling.SplitFlowOf | qsdsan/sanunits/_sludge_handling.py:84-89 | the same, for one component |
| SludgeHandling.Ceil | qsdsan/sanunits/_sludge_handling.py:163 | `math.ceil`: n − 1 < x ≤ n |
| SludgeHandling.CeilLeast | qsdsan/sanunits/_sludge_handling.py:163 | the ceiling is the least integer at or above x |
| SludgeHandling.BeltThickener.constructor | qsdsan/sanunits/_sludge_handling.py:152-159 | the capacity and power demand are stored |
| SludgeHandling.BeltThickener.Design | qsdsan/sanunits/_sludge_handling.py:162-167 | N = ⌈F_vol/max_capacity⌉; the bare-module factor is 1.7, cost 4000·N and power power_demand·N; a zero capacity divides by zero and changes nothing |
| SludgeHandling.ThickenerCount | qsdsan/sanunits/_sludge_handling.py:163 | N thickeners carry the flow and N − 1 would not |
| SludgeHandling.ThickenerCountMonotone | qsdsan/sanunits/_sludge_handling.py:163 | more flow never needs fewer thickeners |
| Stats.Upper | qsdsan/stats.py:1051 | for ASCII text, `str.upper` keeps the length and upper-cases each letter |
| Stats.Lower | qsdsan/stats.py:183 | for ASCII text, `str.lower` keeps the length and lower-cases each letter |
| Stats.Capitalize | qsdsan/stats.py:183 | specification function: `str.capitalize` for ASCII text; CapitalizeIdempotent, CapitalizeKeepsLetters and the *Name lemmas state its properties |
| Stats.RemoveAll | qsdsan/stats.py:1094 | specification function: `s.replace(pat, '')`; JoinOfSplitIsRemoveAll and RemoveAllChars state its properties |
| Stats.Split | qsdsan/stats.py:89 | `s.split(sep)` always gives at least one piece; SplitHead and JoinOfSplitIsRemoveAll state its contents |
| Stats.CapitalizeIdempotent | qsdsan/stats.py:183 | capitalising twice is capitalising once |
| Stats.CapitalizeKeepsLetters | qsdsan/stats.py:183 | capitalising changes only letter case |
| Stats.UpperIdentity | qsdsan/stats.py:1051 | `upper` leaves a text without lower-case letters unchanged |
| Stats.JoinOfSplitIsRemoveAll | qsdsan/stats.py:1074 | `''.join(kind.split('S2'))` equals `kind.replace('S2', '')` |
| Stats.RemoveAllChars | qsdsan/stats.py:1094 | `replace(pat, '')` never adds characters or length |
| Stats.SplitHead | qsdsan/stats.py:89 | `split(sep)[0]` is the prefix of the text before the first separator: it holds no separator, no separator starts inside it, and when the separator occurs one starts right at its end; it is the whole text when the separator is absent |
| Stats.UpdateInput | qsdsan/stats.py:54-64 | `None` and empty inputs give the default; a non-empty sized collection comes back unchanged; a non-empty string, an unsized iterable and a non-iterable are wrapped in a 1-tuple |
| Stats.UpdateInputNonEmpty | qsdsan/stats.py:54-64 | with a non-empty default, the result is always a non-empty collection |
| Stats.UpdateInputIdempotent | qsdsan/stats.py:54-64 | normalising twice is normalising once |
| Stats.DropNa | qsdsan/stats.py:75-76 | `dropna` keeps exactly the rows without NaN; DropNaAppend and DropNaMultiplicity give their order and multiplicity |
| Stats.DropNaAppend | qsdsan/stats.py:75-76 | the kept rows keep their order: those kept from a + b are those kept from a followed by those kept from b |
| Stats.DropNaMultiplicity | qsdsan/stats.py:75-76 | every NaN-free row is kept as often as it occurs, and no row with a NaN is kept |
| Stats.DropNaIdentity | qsdsan/stats.py:75-76 | a frame without NaN is left as it is |
| Stats.UpdateNan | qsdsan/stats.py:67-80 | the invalid-policy error iff the policy is not in `legit`; otherwise 'raise' raises the NaN error and every other policy succeeds: 'propagate' gives the NaN marker, 'omit' exactly `dropna` of the frame, 'fill_mean' the mean-filled frame, and any other policy in `legit` the frame unchanged |
| Stats.UpdateNanDefault | qsdsan/stats.py:67-75 | with the default `legit` (as `get_correlations` calls it at line 179), success iff 'propagate' or 'omit'; 'omit' drops the NaN rows, 'fill_mean' is refused, and a returned frame holds no NaN |
| Stats.UpdateNanAnalysis | qsdsan/stats.py:67-77 | with the `legit` that `morris_analysis` and `sobol_analysis` pass (lines 337 and 523), success iff 'propagate' or 'fill_mean'; 'omit' is refused and 'fill_mean' gives the mean-filled frame |
| Stats.FillMean | qsdsan/stats.py:76-77 | the filled frame has the frame's shape, row by row; FillMeanCells, FillMeanIdentity, FillMeanNaNFree and ColumnMeanBetween state its properties |
| Stats.FillMeanCells | qsdsan/stats.py:77 | every number stays where it was, and every NaN becomes the mean of its column over the NaN-free rows |
| Stats.FillMeanIdentity | qsdsan/stats.py:77 | a frame without NaN is left as it is |
| Stats.FillMeanNaNFree | qsdsan/stats.py:77 | when some NaN-free row is as wide as every row, no NaN remains after filling |
| Stats.ColumnMeanIsNumber | qsdsan/stats.py:77 | a column that some NaN-free row reaches has a numeric mean (otherwise pandas' mean is NaN and the NaN stays) |
| Stats.ColumnMeanBetween | qsdsan/stats.py:77 | the fill value is a mean: it lies within any bounds of the column's numbers over the NaN-free rows |
| Stats.PearsonName | qsdsan/stats.py:183-184 | `capitalize()` gives 'Pearson' iff the kind spells pearson in any case |
| Stats.SpearmanName | qsdsan/stats.py:187 | ditto for 'Spearman' |
| Stats.KendallName | qsdsan/stats.py:190 | ditto for 'Kendall' |
| Stats.KsName | qsdsan/stats.py:193 | the capitalised kind upper-cases to 'KS' iff the kind spells ks in any case |
| Stats.CapitalizeMatches | qsdsan/stats.py:183 | a capitalised name matches exactly its case variants |
| Stats.UpperMatches | qsdsan/stats.py:193 | an upper-case name matches exactly its case variants |
| Stats.CorrelationKindAccepted | qsdsan/stats.py:183-197 | a kind is accepted iff it spells Pearson, Spearman, Kendall or KS in any case |
| Stats.CorrelationKindIgnoresCase | qsdsan/stats.py:183-197 | letter case does not change the outcome |
| Stats.ParseCorrelationKind | qsdsan/stats.py:183-197 | specification function: the capitalised kind against Pearson, Spearman and Kendall, then its upper case against KS, else the kind error; CorrelationKindAccepted and CorrelationKindIgnoresCase state its properties |
| Stats.CorrelationCell | qsdsan/stats.py:177-199 | specification function: one (r, p) cell: NaN handling first, then the kind dispatch; CorrelationInputsNaNFree states its properties |
| Stats.CorrelationInputsNaNFree | qsdsan/stats.py:177-197 | scipy never receives a NaN row; a propagated NaN gives (nan, nan) |
| Stats.RenameLabels | qsdsan/stats.py:89 | every label becomes `label[-1].split(' [')[0]`, or the renaming fails iff some label has no last element |
| Stats.UpdateDfNames | qsdsan/stats.py:83-98 | specification function: rename the columns and/or the index when asked and non-empty, keeping the old labels where renaming raises; RenamedTupleLabel states its properties |
| Stats.RenamedTupleLabel | qsdsan/stats.py:83-98 | a renamed MultiIndex label is its last element's part before the first ' [': a prefix without ' [' at whose end the first ' [' starts, and the whole element when it has no unit; the index is untouched |
| Stats.RenameTwiceTakesLastChar | qsdsan/stats.py:89 | renaming is not idempotent: renaming renamed labels again, for any labels with non-empty names, keeps only the last character of each name |
| Stats.NormalizeSobolKind | qsdsan/stats.py:1051-1055 | the upper-cased kind is refused, with an error naming it, iff it is not 'ALL' and has characters outside S, T, 1, 2; 'ALL' or all four characters give 'STS1S2'; every other accepted kind comes back upper-cased |
| Stats.NormalizeSobolKindIdempotent | qsdsan/stats.py:1051-1055 | a normalised kind normalises to itself |
| Stats.SobolBarAndHeatmap | qsdsan/stats.py:1074-1094 | beside a heat map, the bar shows only S, T, 1, 2; a kept diagonal is 'ST' or 'S1'; after the warning the diagonal is empty |
| Stats.SobolPlot | qsdsan/stats.py:1051-1094 | specification function: the kind is normalised (its error passes through) and then dispatched on; SobolBarAndHeatmap, SobolHeatmapDiagonal and the SobolFull lemmas state its properties |
| Stats.SobolDispatch | qsdsan/stats.py:1057-1094 | specification function: the figure chosen from a normalised kind and the diagonal (bars only, heat map only, heat map with diagonal, or bar beside heat map with the diagonal check); DispatchBarAndHeatmap and DispatchUnwarned state its properties |
| Stats.DispatchBarAndHeatmap | qsdsan/stats.py:1083-1094 | for any kind over S, T, 1, 2, a bar beside a heat map shows only those characters, keeps only 'ST' or 'S1' as diagonal, and empties the diagonal after the warning |
| Stats.DispatchUnwarned | qsdsan/stats.py:1083-1094 | a kind whose part without 'S2' is 'STS1' keeps an accepted diagonal, removes it from the bar, and raises no warning |
| Stats.SobolAllNormalizes | qsdsan/stats.py:1051-1053 | every spelling of 'all', in any case, normalises to 'STS1S2', whose part without 'S2' is 'STS1' |
| Stats.SobolFullWithoutDiagonal | qsdsan/stats.py:1074-1094 | a kind normalising to 'STS1S2' with no diagonal draws the 'STS1' bar beside the heat map, with no warning |
| Stats.SobolFullWithDiagonal | qsdsan/stats.py:1074-1094 | a kind normalising to 'STS1S2' with 'ST' or 'S1' (any case) on the diagonal draws the other of the two as the bar, with no warning |
| Stats.SobolFullRejectsDiagonal | qsdsan/stats.py:1089-1091 | a kind normalising to 'STS1S2' with any other non-empty diagonal except 'STS1' raises the diagonal error |
| Stats.SobolHeatmapDiagonal | qsdsan/stats.py:1074-1080 | a heat map with effects on its diagonal needs a kind that is neither bars-only nor 'S2', and its diagonal is the kind without 'S2', equal to the upper-cased request and non-empty |
| Stats.SobolTotalOnDiagonal | qsdsan/stats.py:1069-1082 | every spelling of 'STS2' with 'ST' (any case) on the diagonal draws the heat map alone, with total effects on its diagonal |
| Stats.MaxOf | qsdsan/stats.py:446 | `mu_star.max()` bounds every entry and is one of them |
| Stats.Exceeds | qsdsan/stats.py:446 | specification predicate: `mu_star_conf/mu_star.max() > threshold` for one entry, where a zero maximum makes any positive confidence exceed (numpy's division gives infinity); ConvergedIffWithinThreshold states its meaning |
| Stats.MetricConverged | qsdsan/stats.py:446 | specification predicate: no confidence exceeds the threshold; ConvergedIffWithinThreshold and MorrisTillConvergence state its use |
| Stats.ConvergedIffWithinThreshold | qsdsan/stats.py:446 | with a positive largest effect, a metric has converged iff every confidence is at most threshold·max |
| Stats.FirstBatch | qsdsan/stats.py:415 | specification function: the first two trajectories, `samples[0: 2*(param_num+1)]`; MorrisTillConvergence, BatchesAdjacent and BatchesWithinSamples state its properties |
| Stats.Batch | qsdsan/stats.py:432 | specification function: trajectory n, `samples[n*(param_num+1): (n+1)*(param_num+1)]`; the same lemmas state its properties |
| Stats.MorrisTillConvergence | qsdsan/stats.py:415-451 | the first slice is [0, 2(p+1)), then slice n is [n(p+1), (n+1)(p+1)), and slices are contiguous; the loop stops at the first n with all metrics converged, and every earlier n had not converged; otherwise it runs to N_max |
| Stats.BatchesAdjacent | qsdsan/stats.py:415-432 | each slice ends where the next begins |
| Stats.BatchesWithinSamples | qsdsan/stats.py:408-432 | every slice lies within the N_max·(p+1) generated samples and is non-empty |

## Left out

- Kinetics: `rate_function`, `params_eval` and `stoichio_eval` are inputs, as the `KineticModel` functions of the state. Only their results' shapes are modelled. A stoichiometry or rate vector whose shape numpy cannot combine is the `ShapeMismatch` error, checked before any write.
- Broadcasting: numpy's broadcasting of length-1 arrays is not modelled, and such a shape is a `ShapeMismatch`. This includes fewer than three rates in `rhos[-3:]`, or a biogas count other than three.
- `CSTR._compile_ODE`: this base-class fallback, used when no model is bound, is the `Inherited` ODE, with no behaviour. `eval_exo_dynamic_vars` is the `exo` argument of `DyDt`.
- Vapour pressure: `p_vapor` (the `Psat` lookup and the unit conversion) is the constant `pVapor`, required positive.
- Property accessors: `headspace_P`, `external_P`, `pipe_resistance` and `fixed_headspace_P` are the fields `pGas`, `pAtm`, `kP` and `fixedPGas`. Their getters and setters are plain field accesses, with no method of their own.
- AnaerobicCSTR.constructor: it requires positive volumes, T and vapour pressure, and biogas IDs that are components. numpy would give infinities for zero ones, and a missing biogas raises inside the model setter.
- Other reactor setters: `V_liq` and `V_gas` have no setters here. `DO_ID`, `aeration` and `split` do nothing, and `_state_header` and `_run` (the volumetric-flow convergence) are not modelled.
- Components: the chemical properties `chem_MW` and `i_mass` are required positive, and "H2O" is required among the component IDs, because `p_vapor` reads `components.H2O` (line 333) and `_update_state` looks up its position (line 469).
- AnaerobicCSTR.QGasFixedP, AnaerobicCSTR.CompileOde, AnaerobicCSTR.GetOde (and DyDt and GasPhase in fixed-pressure mode): they require the biogas positions whenever a model is set. The source can reach a state with a model but no positions: assigning a model whose biogas ID is not a component raises at line 374, after `_model`, `_S_vapor`, `_n_gas` and `_state_keys` are stored. In that state `_compile_ODE` still compiles and the failure comes later, in `dy_dt`. That post-exception state is not modelled.
- AnaerobicCSTR.DyDt: it requires the state and inlet rows to have the lengths the compiled ODE expects. It also requires the derivative buffer to exist, and distinct stream arrays (numpy arrays are never aliased there).
- AnaerobicCSTR.UpdateState: it requires a bound model and a stored state of the key count, both of which the source assumes. AnaerobicCSTR.UpdateDstate requires the derivative buffer to exist.
- `_ODE`'s closure over `self`: `DyDt` is a method of the reactor that takes the compiled ODE's captured values. DyDt and GasPhase do not model a model rebound between compiling and calling, because the captured sizes are then stale.
- BeltThickener.constructor: the source's `BeltThickener.__init__` passes `solubles=` to `SludgeHandling.__init__`, which takes no such argument, so it raises `TypeError`. The model constructs the thickener from its own fields only.
- `N_thickener`: it reads `_N`, which is never set (`_design` sets `_N_thickener`). It is not modelled.
- Root search: `flx.IQ_interpolation` is foreign. `SludgeHandlingUnit.Run` takes the split it settles on, within its bracket [0.001, 0.999].
- Pumps and `_cost`: the pump simulation in `_cost`, the stream temperatures and `SludgeCentrifuge` (a mix of base classes) are left out.
- Stream.CopyFlow: `copy_flow` is modelled on mass flows only. A component's flow is a map entry, and volumetric flow `F_vol` is the thickener's input.
- MoistureResidual: a zero sludge mass is the `NonFiniteMoisture` error, not the NaN or infinity numpy would give.
- Stats.FillMean: frames are rows of numbers or NaN. Columns holding anything else, which pandas' `mean` would skip or reject, are not modelled.
- Statistics and plotting: SALib, scipy, plotting, Excel writing and the remaining analysis functions of `stats.py` are library calls, drawing, I/O and floating-point statistics.
- Registry.LoadDefaultIndicators, LoadKeys: table IDs are assumed distinct. When the table repeats a new ID, `data.loc[indicator]` returns several rows, and the source raises without storing the table: at line 42, or, if the foreign `parse_unit` accepts the several-row unit, at the truth test of the synonym (line 47) after registering the ID (line 46). The model instead loads the first such row and skips the later ones as already registered.
- Registry.LoadDefaultIndicators: the fields of each indicator it creates are stated per row, by LoadRow, and not over the whole table, because carrying them through the loop is too expensive for the solver.
- Import-time loading: the source module calls `ImpactIndicator.load_default_indicators()` when it is imported (line 160). The model's registry starts empty, and that call is an explicit `LoadDefaultIndicators`.
- Impact-indicator extras: `parse_unit` and the CSV loading of `load_default_indicators` are foreign. The table arrives as the `loaded` argument, and `show` prints.
- Other units: the static sizing formulas of the other anaerobic reactors, and the housing and reclaimer unit, are left out.
- Stats.Upper, Stats.Lower, Stats.Capitalize: ASCII only. Python's case mappings also map non-ASCII letters and can change the length ('ß' upper-cases to 'SS', 'ſ' to 'S'), so the model rejects kinds such as 'ſpearman' that `get_correlations` accepts; the lemmas built on them hold for ASCII text.
- Floating point: all quantities are exact reals, so rounding, `NaN` and infinities are not modelled.
