# Slurry mixer: linear Hugoniot mixtures and the calculation request

This project is a Dafny model of two parts of a small web application. The
application computes the shock Hugoniot of a mixture of materials.

- **The mixture engine** (`src/components.py`). Each material has a linear
  Hugoniot: shock velocity Us = C0 + S·up and pressure P = rho0·Us·up.
  - `solve_up` inverts the pressure relation.
  - `convert_volfrac_to_massfrac` turns a volume fraction into a mass fraction.
  - `generate_mixed_hugoniot` (two materials) and `generate_mixed_hugoniot_many`
    (a list of materials) build a mixed material. The first material's
    pressure trace is the common frame. Each other material's particle
    velocity is solved at that pressure. The mixture gets a volume-weighted
    density, mass fractions, and a mass-weighted RMS particle velocity. A
    least-squares line through (mixed up, mixed Us) gives its C0 and S; sample
    0 is excluded from that fit.
- **The calculation request** (`src/main.py`).
  - `post_calculate` counts the material sections of the submitted form. It
    walks them in index order, reading each volume fraction and building each
    material from the catalog or from custom parameters. It accumulates the
    active materials and their total fraction, checks the totals and the fit
    range, and calls the engine.
  - `get_main_page` clamps the requested number of sections and pre-fills
    equal volume fractions.

Arithmetic is over `real`. Several things are parameters:

- `numpy.sqrt` and the line fit (`numpy.polyfit` / `LR`) form a `Library`
  value. Its soundness (`SqrtSound`, `FitExact`) is a hypothesis of the lemmas
  that need it.
- The parsers `float()` and `int()` are a `Parsers` value of partial
  functions.
- The materials table is a map from a material's name (its primary key) to
  its (rho0, C0, S).

Modules:

- `Wrappers`: Option and Result.
- `Numerics`: sums, element-wise division, `numpy.isclose`, `numpy.linspace`,
  and the abstract library.
- `Hugoniot`: `HugoniotEOS`.
- `Mixture`: the two-material engine and the volume-to-mass conversion.
- `MixtureMany`: the N-material engine. `CollectMaterials` is its collection
  loop and `GenerateMixedHugoniotMany` the function as a method.
- `Calculate`: `post_calculate`.
- `MainPage`: the `get_main_page` defaults.

## Model

| member | source | states |
|---|---|---|
| `Hugoniot.ShockVelocity` | src/components.py:24-26 | at up = 0 the shock velocity is exactly C0 |
| `Hugoniot.Pressure` | src/components.py:28-31 | the pressure is 0 at up = 0 |
| `Hugoniot.SolveUp` | src/components.py:33-38 | defined for rho0 ≠ 0, S ≠ 0 and a nonnegative discriminant; the result r solves S·r² + C0·r = P/rho0 and lies on the root branch 2·S·r + C0 >= 0 |
| `Hugoniot.SolveUpInvertsPressure` | src/components.py:28-38 | round trip: solve_up(hugoniot_P(up)) == up whenever C0 + 2·S·up >= 0 (so for every up >= 0 when C0, S > 0), and the discriminant there is nonnegative |
| `Hugoniot.PressureInvertsSolveUp` | src/components.py:28-38 | the other round trip: hugoniot_P(solve_up(P)) == P wherever solve_up is defined |
| `Hugoniot.SolveUpAtZero` | src/components.py:33-38 | solve_up(0) is defined, and it is 0 exactly when C0 >= 0 |
| `Hugoniot.SolveUpDomain` | src/components.py:33-37 | for rho0, S > 0, solve_up is defined exactly when 4·S·P >= −rho0·C0² |
| `Hugoniot.PressureIncreasing` | src/components.py:28-31 | the pressure strictly increases with up on up >= 0 for rho0, C0 > 0 and S >= 0, so it is positive for every up > 0 |
| `Hugoniot.PressureTrace` | src/components.py:57 | `hugoniot_P` on an array: one pressure per reference velocity, each the Hugoniot pressure at that velocity |
| `Hugoniot.SolveUpTrace` | src/components.py:59 | `solve_up` on an array: one velocity per pressure, equal to `solve_up` wherever it is defined |
| `Mixture.MassFractionShares` | src/components.py:47-51 | for a nonzero total mass, x1 and 1 − x1 times the total mass are the two masses; equal densities give Vx1; Vx1 = 1 gives 1 and Vx1 = 0 gives 0 |
| `Mixture.ConvertVolfracToMassfrac` | src/components.py:47-51 | a material with no mass has share 0, and one holding all the mass has share 1 |
| `Mixture.MassFractionInUnitInterval` | src/components.py:47-51 | for nonnegative densities and Vx1 in [0, 1], the mass fraction lies in [0, 1] |
| `Mixture.DenserMaterialGainsMass` | src/components.py:47-51 | for positive densities and 0 < Vx1 < 1, x1 > Vx1 exactly when rho1 > rho2 |
| `Mixture.MixtureDensity2` | src/components.py:63-65 | rho_mix = total mass / total volume equals the volume-weighted density rho1·Vx + rho2·(1 − Vx) |
| `Mixture.MixedSquares2` | src/components.py:66 | sample k is up1[k]²·x1 + up2[k]²·(1 − x1) |
| `Mixture.MixedUp` | src/components.py:66 | with a sound sqrt, each mixed particle velocity is nonnegative and squares back to its mass-weighted mean square |
| `Mixture.ShockSamples` | src/components.py:67 | one sample per index after 0, and each sample times rho_mix·mixed_Up[j+1] is P[j+1] |
| `Mixture.FitSamples` | src/components.py:67-68 | NotFinite exactly when a divisor after sample 0 is zero; otherwise the fit is applied to mixed_Up[1:] and those samples |
| `Mixture.MixTwoSamples` | src/components.py:57-74 | errors are NotFinite or FitFailed; NotFinite exactly when material 2 cannot be solved, or the mean square is negative, at a sample after the first, or a divisor after sample 0 is zero; a mixture carries the name, rho_mix, [name1, name2], [Vx, 1 − Vx], [x1, 1 − x1], and C0 and S from the fit of the samples after the first |
| `Mixture.GenerateMixedHugoniot` | src/components.py:54-74 | ZeroDivision exactly when a density or the total mass is zero; a mixture has the given name, components [name1, name2] in order, vfracs [Vx, 1 − Vx], rho0 = rho1·Vx + rho2·(1 − Vx), and material 2 solvable at every pressure after the first |
| `Mixture.MixWithMass` | src/components.py:57-74 | past the divisions: errors are NotFinite or FitFailed; a mixture has rho0 = rho1·Vx + rho2·(1 − Vx) and mfracs [x1, 1 − x1] with x1 from `convert_volfrac_to_massfrac` |
| `Mixture.GeneratedFractionsSumToOne` | src/components.py:54-73 | a mixture implies a nonzero total mass; its mfracs are [x1, 1 − x1] with x1 from `convert_volfrac_to_massfrac`; the stored volume fractions and mass fractions each sum to 1 |
| `Mixture.SameMaterialSolvesBack` | src/components.py:57-59 | for a second material identical to the first, solving at the first's pressures returns the reference up |
| `Mixture.SameTraceMixedUp` | src/components.py:66 | when both traces equal up (up[0] >= 0, later entries positive), the RMS particle velocity is up itself |
| `Mixture.ShockSampleOnHugoniot` | src/components.py:67 | a sample P/(rho0·u) of a material's own pressure is its shock velocity Us(u) = C0 + S·u |
| `Mixture.OwnSamplesOnHugoniot` | src/components.py:67 | all fitted samples of a single material lie exactly on its own Hugoniot line |
| `Mixture.IdenticalSamplesFitOwnLine` | src/components.py:57-74 | mixing a material with itself, the sample stage yields exactly its own rho0, C0 and S |
| `Mixture.IdenticalMaterialsReproduceHugoniot` | src/components.py:54-74 | mixing a material with an identical one reproduces its rho0, C0 and S; the mass fractions equal the volume fractions |
| `Mixture.FiniteWhenLaterSamplesSolvable` | src/components.py:57-68 | with nonzero densities and total mass, 0 < x1 <= 1, nonzero reference velocities after the first, and material 2 solvable at every pressure after the first, the generator never reports NotFinite, whatever happens at sample 0 |
| `Mixture.FirstSampleNotFiniteIgnored` | src/components.py:57-68 | up = [−0.5, 1, 2] with materials (1, 1, 1) and (1, 1, 10): the second has no real velocity at P[0] = −0.25, yet the mixture is not NotFinite |
| `Mixture.MixedDivisorsNonzero` | src/components.py:66-67 | with nonzero reference velocities after the first, 0 < x1 <= 1 and rho_mix ≠ 0, every mean square after sample 0 is nonnegative and every divisor rho_mix·mixed_Up[k] after sample 0 is nonzero |
| `Numerics.SharesSumToOne` | src/components.py:113 | the mass fractions m / sum(masses) sum to 1 whenever the total mass is nonzero |
| `Numerics.Linspace` | src/main.py:397 | num points, from start to stop, in equal steps (stop − start)/(num − 1) |
| `Numerics.LinspaceIncreasing` | src/main.py:397 | for start < stop, the reference velocities strictly increase |
| `MixtureMany.Volume` | src/components.py:107-108 | each volume (rho_i·xv_i)/rho_i equals xv_i |
| `MixtureMany.Volumes` | src/components.py:102-110 | the volume list equals the volume fractions, so rho_mix = Σ rho_i·xv_i / Σ xv_i |
| `MixtureMany.UpTraces` | src/components.py:96-111 | Up_list[0] is the reference Up, and every later entry is solve_up of that material at the first material's pressure |
| `MixtureMany.WeightedSquares` | src/components.py:114 | sample k is Σ_i Up_list[i][k]²·x_i |
| `MixtureMany.MixManySamples` | src/components.py:114-122 | errors are NotFinite or FitFailed; NotFinite exactly when a later material cannot be solved, or the mean square is negative, at a sample after the first, or a divisor after sample 0 is zero; a mixture carries the name, rho_mix, the labelled names and fractions, the mass fractions, and C0 and S as the fit of mixed_Up[1:] = sqrt(Σ x_i·Up_list[i]²)[1:] against P[1:]/(rho_mix·mixed_Up[1:]) |
| `MixtureMany.MixManyCore` | src/components.py:95-122 | ZeroDivision exactly when a density, the volume sum or the mass sum is zero |
| `MixtureMany.MixManyAsWritten` | src/components.py:92-122 | as written: the error FractionsSumToOne is raised exactly when the fractions ARE close to summing to 1 |
| `MixtureMany.MixManyIntended` | src/components.py:90-122 | as documented: the error FractionsDoNotSumToOne is raised exactly when the fractions are not close to 1 |
| `MixtureMany.ListAppend` | src/components.py:104-111 | appending a material appends its name, fraction, mass and particle-velocity trace |
| `MixtureMany.CollectMaterials` | src/components.py:95-111 | the loop: a zero density is reported exactly when one occurs; otherwise Up_list, masses and vols are those of the whole list, and names and xvs those of material_list[1:] |
| `MixtureMany.GenerateMixedHugoniotMany` | src/components.py:77-122 | the method returns what `MixManyAsWritten` specifies, on every input |
| `MixtureMany.SampleStage` | src/components.py:114-122 | the method computes exactly `MixManySamples` on the lists the loop collected |
| `MixtureMany.CoreBookkeeping` | src/components.py:112-121 | a mixture has rho0 = Σ masses / Σ vols with both sums nonzero, mfracs = masses / Σ masses summing to 1, and C0 and S as the fit of sqrt(Σ x_i·Up_list[i]²) against P / (rho_mix·mixed_Up) on the samples after the first |
| `MixtureMany.MassFractionsInUnitInterval` | src/components.py:113 | for nonnegative densities and fractions, each mass fraction lies in [0, 1] |
| `MixtureMany.TracesShareFirstPressure` | src/components.py:95-111 | at every sample after the first, every material's particle-velocity trace produces exactly the first material's pressure |
| `MixtureMany.AsWrittenRejectsUnitSums` | src/components.py:92-94 | as written, every list whose fractions sum to exactly 1 is rejected |
| `MixtureMany.GuardInvertedExample` | src/components.py:90-94 | two materials at 0.5/0.5: as written, rejected; as intended, the fraction check passes |
| `MixtureMany.AsWrittenDropsFirstMaterial` | src/components.py:104-106 | as written, components and vfracs omit the first material while mfracs covers all of them |
| `MixtureMany.IntendedBookkeeping` | src/components.py:92-121 | as intended, components and vfracs cover the whole list in order, vfracs are close to summing to 1, the mass fractions sum to 1, rho0 = Σ masses / Σ vfracs, and C0 and S are the fit of the samples after the first |
| `MixtureMany.ManyAgreesWithTwo` | src/components.py:54-122 | for a two-material list [(m1, Vx), (m2, 1 − Vx)], the intended N-material engine gives exactly what the two-material engine gives |
| `MixtureMany.PairZeroDivision` | src/components.py:107-113 | a zero density or zero total mass makes the N-material core raise ZeroDivision on the pair list |
| `Calculate.DecimalRoundTrip` | src/main.py:326-327 | the index text in `f"vfrac{i}"` and `f"material_type_{i}"` is the decimal rendering of i: a string of digits whose value is i |
| `Calculate.DecimalInjective` | src/main.py:326-327 | distinct indices give distinct key texts |
| `Calculate.LastField` | src/main.py:313 | `key.split("_")[-1]` is the suffix after the last underscore: it contains none, and is the whole key when there is none |
| `Calculate.MaterialCountUnique` | src/main.py:309-316 | the material count of a form is uniquely determined |
| `Calculate.CountMaterials` | src/main.py:309-316 | the count is the largest index a `material_type_` key announces, 0 when none announces a positive one; suffixes that do not parse are skipped |
| `Calculate.FractionText` | src/main.py:327-329 | the text parsed is the `vfrac<i>` field when present and nonempty, and "0" otherwise |
| `Calculate.MissingFractionIsZero` | src/main.py:327-368 | with `float("0") == 0.0`, a missing or empty fraction is read as 0: the section is skipped when its material cannot be built and plotted with fraction 0 when it can, never aborting |
| `Calculate.ReadFraction` | src/main.py:327-335 | accepted exactly when the text parses to a number in [0, 1], and then it is that number; FractionInvalid exactly when the parser fails; a parsed number outside [0, 1] gives FractionOutOfRange |
| `Calculate.ResolveMaterial` | src/main.py:337-368 | premade: PremadeNotSelected exactly for an empty selection, PremadeNotFound exactly for a name missing from the catalog, and otherwise the catalog entry; custom: CustomInvalid exactly when a parameter does not parse, otherwise built exactly when rho0 and C0 are positive (with the name and the three parsed values) and CustomNonPositive when not; any other type: UnknownType, or TypeMissing when empty |
| `Calculate.StepAt` | src/main.py:325-374 | a bad fraction aborts with its own error; a built material is added with the fraction read; a material that cannot be built aborts with its resolve error exactly when the fraction is > 0 and is skipped otherwise |
| `Calculate.Advance` | src/main.py:370-374 | a step fails exactly when it aborts, with its error; a skip leaves the lists and total unchanged; a built material is appended to the plotting list, and to the calculation list with its fraction added to the total exactly when the fraction is > 0 |
| `Calculate.AppendBuilt` | src/main.py:370-374 | the method updates the two lists and the total exactly as `Advance` specifies for a built material |
| `Calculate.AssembleUpTo` | src/main.py:325-374 | any error names a section between 1 and n |
| `Calculate.AssemblyInvariant` | src/main.py:321-374 | total_vfrac is the sum of the active fractions, each active fraction is in (0, 1], the calculation list is the plotting list filtered to fractions > 0 in index order, and the plotting list holds, in index order, exactly one material for each section whose step adds one (`AddedSections`), and so has at most n entries |
| `Calculate.AddedSections` | src/main.py:321-374 | the sections among 1..n whose step adds a material, each in [1, n], in strictly increasing order |
| `Calculate.AbortPersists` | src/main.py:325-368 | once the walk returns an error, later sections do not change it |
| `Calculate.FirstAbortWins` | src/main.py:325-368 | the first section that aborts decides the error |
| `Calculate.NoAbortBefore` | src/main.py:325-374 | with no aborting section, the walk completes |
| `Calculate.ReadFitRange` | src/main.py:383-395 | FitParamsInvalid exactly when a field does not parse; otherwise FitRangeEmpty exactly when upmin >= upmax, TooFewPoints exactly when the range is fine but there are fewer than 10 points, and otherwise the parsed (upmin, upmax, num) |
| `Calculate.CheckAssembly` | src/main.py:376-397 | NoActiveMaterials exactly for an empty calculation list, FractionsNotOne exactly for a nonempty one whose total is not close to 1, then the fit-parameter error; a request carries both lists, the name `mixture_name` (default "MyMixture") and up = linspace(upmin, upmax, num) of the parsed range |
| `Calculate.RequestSpec` | src/main.py:309-397 | NoMaterialSections exactly when n = 0; the walk's error is returned as is; a validated request has the walk's calculation and plotting lists, fractions close to summing to 1, the mixture name and up = linspace of the parsed fit range; its errors are never call errors |
| `Calculate.AssembleSection` | src/main.py:325-374 | one pass of the loop on the lists built so far computes exactly `AssembleUpTo` for that section |
| `Calculate.AssembleMaterials` | src/main.py:321-374 | the loop with its early return computes exactly `AssembleUpTo` |
| `Calculate.ValidateRequest` | src/main.py:307-397 | the handler up to the engine call computes exactly `RequestSpec` at the form's material count |
| `Calculate.CallDoesNotBind` | src/main.py:400 | the keywords of the call are not all parameters of `generate_mixed_hugoniot_many`; the engine's own parameter names are |
| `Calculate.Lift` | src/main.py:403-406 | an engine exception becomes a calculation error; a mixture passes through unchanged |
| `Calculate.PostCalculateAsWritten` | src/main.py:307-406 | as written: a validation error is returned unchanged, and a mixture comes only from a validated request |
| `Calculate.PostCalculateIntended` | src/main.py:307-406 | as intended: a validation error is returned unchanged, and a validated request is handed to the engine with its name, active list and reference velocities |
| `Calculate.AsWrittenNeverComputes` | src/main.py:399-406 | as written, no form ever yields a mixture; exactly the validated requests fail at the call |
| `Calculate.RepairedCallStillRejected` | src/main.py:379-400 | with the keywords repaired, the inverted guard still rejects every validated request |
| `Calculate.IntendedComputesActiveList` | src/main.py:370-400 | as intended, a validated request never trips the engine's fraction or empty-list checks; a mixture lists the active materials in index order with their fractions |
| `MainPage.RequestedMaterialCount` | src/main.py:256-260 | the count is in [1, 10]; a parsed value is kept exactly when it is in range, and anything else becomes 2 |
| `MainPage.DefaultVolumeFractions` | src/main.py:281-283 | n entries, each 1/n, summing to 1 |

## Left out

- Merge-conflict markers (src/components.py:1-5, 10-14). The model takes the file as if the conflict were resolved; as shipped, the module cannot be imported.
- Missing imports of `Tuple` and `LR` (src/components.py:79, 116). The first fails at import, the second at the call. `LR` is modelled as the abstract line fit.
- `plot_mixture_many`, imported at src/main.py:18, does not exist in src/components.py, so src/main.py cannot be imported. The plot call at src/main.py:401 and the HTML it returns are not modelled. The handler's result is the mixture itself.
- NaN and inf: where numpy would produce NaN or inf at a sample after the first, the model returns the error `NotFinite`. This covers the square root of a negative, and 0/0 or x/0 on arrays. The source does not raise there: it goes on and may return a mixture holding NaN coefficients. A NaN confined to sample 0 never reaches the fit, in the source or in the model.
- IEEE-754 rounding is not modelled. Over the reals, the equal default shares at src/main.py:281 already sum to exactly 1, so the correction at line 283 never changes a value. The branch is kept all the same.
- The least-squares fit and `numpy.sqrt` are abstract (`Library`). Only which samples reach the fit, and the exact-fit hypothesis `FitExact`, are stated.
- `float()` and `int()` are abstract partial parsers (`Parsers`). Text such as "nan", "inf" or " 3 " is therefore not modelled.
- `generate_mixed_hugoniot` and `generate_mixed_hugoniot_many` take a default `Up = linspace(0, 8, 1000)`; the model always passes Up explicitly.
- Python's two `except` branches (src/main.py:403-406) both become `CalculationFailed` or `CallFailed`; the message texts become `FormError` constructors.
- Login, sessions, the database setup and CRUD routes, `get_material_details`, and the HTML form generation of src/main.py. They are I/O and UI. The materials table (src/main.py:34-35) is a map keyed by the material's name.
- `plot_mixture` and `make_custom_mat` (src/components.py:125-255) render plots. src/app.py is not part of this model.
- Some engine behaviour a reader might expect is not in the code, and the model follows the code:
  - `solve_up` has no S = 0 branch, so `Hugoniot.SolveUp` requires S ≠ 0;
  - no filter drops near-zero particle velocities, so only sample 0 is excluded from the fit;
  - there is no fallback when the fit fails.
- `Mixture.GenerateMixedHugoniot`: its own contract does not state the mass fractions or that vfracs and mfracs sum to 1; `Mixture.GeneratedFractionsSumToOne` states both.
- `Mixture.MixTwoSamples`: the fitted C0 and S are stated only as what the abstract fit returns for the samples. `Mixture.IdenticalMaterialsReproduceHugoniot` pins them down for identical materials.
- `MixtureMany.MixManySamples`: likewise, C0 and S are stated as what the abstract fit returns for (mixed_Up[1:], mixed_Us). `MixtureMany.ManyAgreesWithTwo` and `Mixture.IdenticalMaterialsReproduceHugoniot` pin them down for a pair of identical materials.
- `Hugoniot.SolveUp`: it is partial, defined for rho0 ≠ 0, S ≠ 0 and a nonnegative discriminant. The source evaluates it everywhere and yields NaN or inf outside that domain. Callers model those samples through `Hugoniot.SolvableAfterFirst`; sample 0 is not checked, since it never reaches the fit.

## Findings

| source | as written | input that shows it | evidently intended | confidence | as-written member | corrected member |
|---|---|---|---|---|---|---|
| src/components.py:93 | raises "Volume fractions must sum to 1" when the fractions DO sum to 1 (the `not` is missing) | two materials with volume fractions 0.5 and 0.5 | raise only when the fractions do not sum to 1, as the docstring at line 90 says | high; not executed | `MixtureMany.MixManyAsWritten`, `MixtureMany.GuardInvertedExample` | `MixtureMany.MixManyIntended`, `MixtureMany.IntendedBookkeeping` |
| src/components.py:104-106 | `names` and `xvs` are collected from `material_list[1:]` only, so the mixture's components and vfracs omit the first material, while its mfracs cover all materials | [(A, 0.3), (B, 0.2)], which passes the guard as written: components == [B.name], mfracs has two entries | store every material's name and fraction, as `generate_mixed_hugoniot` does at lines 69-70 | medium; not executed | `MixtureMany.AsWrittenDropsFirstMaterial` | `MixtureMany.IntendedBookkeeping`, `MixtureMany.ManyAgreesWithTwo` |
| src/main.py:400 | calls the engine with keywords `material_data_list=` and `Up_ref=`, which are not its parameters (`material_list`, `Up`), so Python raises TypeError before the engine runs | any form that passes validation, e.g. one premade material with fraction 1 | pass `material_list=` and `Up=` | high; not executed | `Calculate.PostCalculateAsWritten`, `Calculate.AsWrittenNeverComputes` | `Calculate.PostCalculateIntended`, `Calculate.IntendedComputesActiveList` |
