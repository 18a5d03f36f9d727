/** The N-material engine `generate_mixed_hugoniot_many` of src/components.py.
    The specification functions say what the engine computes; the method
    `GenerateMixedHugoniotMany` is the engine's own accumulation loop,
    proved to compute the specification as the code is written. */
module MixtureMany {
  import opened Wrappers
  import opened Numerics
  import opened Hugoniot
  import opened Mixture

  /** The volume fractions of a material list, in order. */
  function Fractions(ms: seq<Component>): (v: seq<real>)
    ensures |v| == |ms|
    ensures forall i :: 0 <= i < |ms| ==> v[i] == ms[i].vfrac
  {
    seq(|ms|, i requires 0 <= i < |ms| => ms[i].vfrac)
  }

  /** The material names of a material list, in order. */
  function Names(ms: seq<Component>): (n: seq<string>)
    ensures |n| == |ms|
    ensures forall i :: 0 <= i < |ms| ==> n[i] == ms[i].eos.name
  {
    seq(|ms|, i requires 0 <= i < |ms| => ms[i].eos.name)
  }

  /** `mat.rho0 * xv`: a material's mass per unit mixture volume. */
  function Mass(c: Component): real
  {
    c.eos.rho0 * c.vfrac
  }

  /** `mass / mat.rho0`: a material's volume, which is its volume fraction again. */
  function Volume(c: Component): (v: real)
    requires c.eos.rho0 != 0.0
    ensures v == c.vfrac
  {
    MassOverDensity(c.eos.rho0, c.vfrac);
    Mass(c) / c.eos.rho0
  }

  /** The masses rho_i · xv_i of a material list, in order. */
  function Masses(ms: seq<Component>): (m: seq<real>)
    ensures |m| == |ms|
    ensures forall i :: 0 <= i < |ms| ==> m[i] == Mass(ms[i])
  {
    seq(|ms|, i requires 0 <= i < |ms| => Mass(ms[i]))
  }

  /** No material has density zero, so no `mass / rho0` divides by zero. */
  predicate DensitiesNonzero(ms: seq<Component>)
  {
    forall i :: 0 <= i < |ms| ==> ms[i].eos.rho0 != 0.0
  }

  /** The volumes (rho_i · xv_i) / rho_i of a material list: the volume fractions again. */
  function Volumes(ms: seq<Component>): (v: seq<real>)
    requires DensitiesNonzero(ms)
    ensures v == Fractions(ms)
  {
    seq(|ms|, i requires 0 <= i < |ms| => Volume(ms[i]))
  }

  /** `(rho · xv) / rho` is xv again. */
  lemma MassOverDensity(rho: real, xv: real)
    requires rho != 0.0
    ensures (rho * xv) / rho == xv
  {
  }

  /** `Up_list`: the reference velocities, then every later material's
      `solve_up` at the first material's pressures ps. */
  function UpTraces(ms: seq<Component>, up: seq<real>, ps: seq<real>, lib: Library): (t: seq<seq<real>>)
    requires |ms| > 0
    ensures |t| == |ms| && t[0] == up
    ensures forall i :: 1 <= i < |ms| ==> t[i] == SolveUpTrace(ms[i].eos, ps, lib)
    ensures |ps| == |up| ==> TracesOfLength(t, |up|)
  {
    [up] + seq(|ms| - 1, i requires 0 <= i < |ms| - 1 => SolveUpTrace(ms[i + 1].eos, ps, lib))
  }

  /** Every later material's `solve_up` is real at every pressure sample
      after the first. */
  predicate LaterSolvable(ms: seq<Component>, ps: seq<real>)
  {
    forall i :: 1 <= i < |ms| ==> SolvableAfterFirst(ms[i].eos, ps)
  }

  /** Every trace has the length of the reference velocities. */
  predicate TracesOfLength(traces: seq<seq<real>>, len: nat)
  {
    forall i :: 0 <= i < |traces| ==> |traces[i]| == len
  }

  /** The terms traces[i][k]² · x_i of the sum at sample k. */
  function WeightedTerms(traces: seq<seq<real>>, mf: seq<real>, len: nat, k: nat): (w: seq<real>)
    requires |traces| == |mf| && TracesOfLength(traces, len) && k < len
    ensures |w| == |mf|
    ensures forall i :: 0 <= i < |mf| ==> w[i] == traces[i][k] * traces[i][k] * mf[i]
  {
    seq(|mf|, i requires 0 <= i < |mf| => traces[i][k] * traces[i][k] * mf[i])
  }

  /** `sum([up**2 * x for up, x in zip(Up_list, mass_frac)])`, sample by sample. */
  function WeightedSquares(traces: seq<seq<real>>, mf: seq<real>, len: nat): (a: seq<real>)
    requires |traces| == |mf| && TracesOfLength(traces, len)
    ensures |a| == len
    ensures forall k :: 0 <= k < len ==> a[k] == Sum(WeightedTerms(traces, mf, len, k))
  {
    seq(len, k requires 0 <= k < len => Sum(WeightedTerms(traces, mf, len, k)))
  }

  /** The mean square particle velocity `sum(up**2 * x ...)` of the traces
      at the first material's pressures, weighted by the mass fractions. */
  function MeanSquares(ms: seq<Component>, up: seq<real>, lib: Library, massFrac: seq<real>): (a: seq<real>)
    requires |ms| > 0 && |massFrac| == |ms|
    ensures |a| == |up|
  {
    var ps := PressureTrace(ms[0].eos, up);
    WeightedSquares(UpTraces(ms, up, ps, lib), massFrac, |up|)
  }

  /** The sample stage of the engine, once the mixture density rhoMix and
      the mass fractions are known: the NaN cases (a later material
      unsolvable, or a negative mean square, at a sample after the first;
      a zero divisor), the fit through the samples after the first, and the
      mixture, carrying the fitted C0 and S, the labels' names and volume
      fractions and, attached after construction, the mass fractions. */
  function MixManySamples(name: string, ms: seq<Component>, up: seq<real>, lib: Library, labels: seq<Component>,
                          rhoMix: real, massFrac: seq<real>): (r: Result<MixedEOS, Fault>)
    requires |ms| > 0 && |massFrac| == |ms|
    ensures r.Err? ==> r.error == NotFinite || r.error == FitFailed
    ensures var ps := PressureTrace(ms[0].eos, up);
            var arg := MeanSquares(ms, up, lib, massFrac);
            r == Err(NotFinite) <==>
              !LaterSolvable(ms, ps) || !NonnegativeAfterFirst(arg) || !NonzeroAfterFirst(ps, MixedUp(arg, lib), rhoMix)
    ensures r.Ok? ==> r.value.eos.name == name && r.value.eos.rho0 == rhoMix
    ensures r.Ok? ==> r.value.components == Names(labels) && r.value.vfracs == Fractions(labels)
    ensures r.Ok? ==> r.value.mfracs == massFrac
    ensures r.Ok? ==> LaterSolvable(ms, PressureTrace(ms[0].eos, up))
    ensures r.Ok? ==>
              var arg := MeanSquares(ms, up, lib, massFrac);
              && NonnegativeAfterFirst(arg)
              && FitSamples(PressureTrace(ms[0].eos, up), MixedUp(arg, lib), rhoMix, lib)
                 == Ok(Line(r.value.eos.C0, r.value.eos.S))
  {
    var ps := PressureTrace(ms[0].eos, up);
    if !LaterSolvable(ms, ps) then Err(NotFinite)
    else
      var arg := MeanSquares(ms, up, lib, massFrac);
      if !NonnegativeAfterFirst(arg) then Err(NotFinite)
      else match FitSamples(ps, MixedUp(arg, lib), rhoMix, lib)
        case Err(f) => Err(f)
        case Ok(l) =>
          var mixed := MixedEOS(EOS(name, rhoMix, l.intercept, l.slope), Names(labels), Fractions(labels), []);
          Ok(mixed.(mfracs := massFrac))
  }

  /** The engine after the fraction guard and the `material_list[0]` access:
      a ZeroDivisionError when a density is zero (the loop's `mass / rho0`)
      or when the volumes or the masses add up to zero (`rho_mix`,
      `mass_frac`); otherwise rho_mix = Σm / Σv and mass fractions m_i / Σm
      go to the sample stage. */
  function MixManyCore(name: string, ms: seq<Component>, up: seq<real>, lib: Library, labels: seq<Component>): (r: Result<MixedEOS, Fault>)
    requires |ms| > 0
    ensures r == Err(ZeroDivision) <==>
              !DensitiesNonzero(ms) || Sum(Fractions(ms)) == 0.0 || Sum(Masses(ms)) == 0.0
  {
    if !DensitiesNonzero(ms) then Err(ZeroDivision)
    else
      var masses := Masses(ms);
      var vols := Volumes(ms);
      if Sum(vols) == 0.0 || Sum(masses) == 0.0 then Err(ZeroDivision)
      else
        var rhoMix := Sum(masses) / Sum(vols);
        var massFrac := DivideAll(masses, Sum(masses));
        MixManySamples(name, ms, up, lib, labels, rhoMix, massFrac)
  }

  /** `generate_mixed_hugoniot_many` as written: the guard raises when the
      fractions ARE close to 1, and the stored names and volume fractions
      come from `material_list[1:]` only. */
  function MixManyAsWritten(name: string, ms: seq<Component>, up: seq<real>, lib: Library): (r: Result<MixedEOS, Fault>)
    ensures r == Err(FractionsSumToOne) <==> IsClose(Sum(Fractions(ms)), 1.0)
  {
    if IsClose(Sum(Fractions(ms)), 1.0) then Err(FractionsSumToOne)
    else if ms == [] then Err(EmptyMaterialList)
    else MixManyCore(name, ms, up, lib, ms[1..])
  }

  /** `generate_mixed_hugoniot_many` as its docstring describes it: a
      ValueError when the fractions do NOT sum to 1, and every material's
      name and volume fraction stored on the mixture. */
  function MixManyIntended(name: string, ms: seq<Component>, up: seq<real>, lib: Library): (r: Result<MixedEOS, Fault>)
    ensures r == Err(FractionsDoNotSumToOne) <==> !IsClose(Sum(Fractions(ms)), 1.0)
  {
    if !IsClose(Sum(Fractions(ms)), 1.0) then Err(FractionsDoNotSumToOne)
    else if ms == [] then Err(EmptyMaterialList)
    else MixManyCore(name, ms, up, lib, ms)
  }

  /** Appending a material appends its name, fraction, mass and trace. */
  lemma ListAppend(ms: seq<Component>, c: Component, up: seq<real>, ps: seq<real>, lib: Library)
    ensures Names(ms + [c]) == Names(ms) + [c.eos.name]
    ensures Fractions(ms + [c]) == Fractions(ms) + [c.vfrac]
    ensures Masses(ms + [c]) == Masses(ms) + [Mass(c)]
    ensures |ms| > 0 ==> UpTraces(ms + [c], up, ps, lib) == UpTraces(ms, up, ps, lib) + [SolveUpTrace(c.eos, ps, lib)]
  {
    var ms' := ms + [c];
    assert forall i :: 0 <= i < |ms| ==> ms'[i] == ms[i];
    var m := Masses(ms');
    var m0 := Masses(ms) + [Mass(c)];
    assert |m| == |m0|;
    forall i | 0 <= i < |m|
      ensures m[i] == m0[i]
    {
    }
    if |ms| > 0 {
      var t := UpTraces(ms', up, ps, lib);
      var t0 := UpTraces(ms, up, ps, lib) + [SolveUpTrace(c.eos, ps, lib)];
      assert |t| == |t0|;
      forall i | 0 <= i < |t|
        ensures t[i] == t0[i]
      {
      }
    }
  }

  /** Lines 95-111 of `generate_mixed_hugoniot_many`: take the first
      material, then walk the rest in order, appending to `Up_list`,
      `masses`, `vols`, `names` and `xvs`. `zeroDensity` reports the
      ZeroDivisionError that `mass / rho0` raises for a material of density
      zero; otherwise the lists are the reference velocities and the later
      materials' traces, every mass rho_i·xv_i, every volume (equal to
      xv_i), and the names and fractions of all materials but the first. */
  method CollectMaterials(ms: seq<Component>, up: seq<real>, ps: seq<real>, lib: Library)
    returns (zeroDensity: bool, upList: seq<seq<real>>, masses: seq<real>, vols: seq<real>,
             names: seq<string>, xvs: seq<real>)
    requires |ms| > 0
    ensures zeroDensity <==> !DensitiesNonzero(ms)
    ensures !zeroDensity ==>
              && upList == UpTraces(ms, up, ps, lib)
              && masses == Masses(ms) && vols == Fractions(ms)
              && names == Names(ms[1..]) && xvs == Fractions(ms[1..])
  {
    var mat1 := ms[0].eos;
    upList := [up];
    masses := [];
    vols := [];
    names := [];
    xvs := [];
    masses := masses + [Mass(ms[0])];
    if mat1.rho0 == 0.0 {
      return true, upList, masses, vols, names, xvs;
    }
    vols := vols + [Volume(ms[0])];
    assert ms[..1] == [ms[0]];
    assert Masses(ms[..1])[0] == masses[0] && Fractions(ms[..1])[0] == vols[0];
    assert Masses(ms[..1]) == masses && Fractions(ms[..1]) == vols;
    var i := 1;
    while i < |ms|
      invariant 1 <= i <= |ms|
      invariant DensitiesNonzero(ms[..i])
      invariant upList == UpTraces(ms[..i], up, ps, lib)
      invariant masses == Masses(ms[..i])
      invariant vols == Fractions(ms[..i])
      invariant names == Names(ms[1..i])
      invariant xvs == Fractions(ms[1..i])
    {
      var mat := ms[i].eos;
      var xv := ms[i].vfrac;
      ghost var prefix := ms[..i];
      ghost var later := ms[1..i];
      assert ms[..i + 1] == prefix + [ms[i]];
      assert ms[1..i + 1] == later + [ms[i]];
      ListAppend(prefix, ms[i], up, ps, lib);
      ListAppend(later, ms[i], up, ps, lib);
      names := names + [mat.name];
      xvs := xvs + [xv];
      var mass := Mass(ms[i]);
      if mat.rho0 == 0.0 {
        return true, upList, masses, vols, names, xvs;
      }
      var vol := Volume(ms[i]);
      masses := masses + [mass];
      vols := vols + [vol];
      upList := upList + [SolveUpTrace(mat, ps, lib)];
      i := i + 1;
    }
    assert ms[..i] == ms;
    zeroDensity := false;
  }

  /** `generate_mixed_hugoniot_many` as the code is written: the guard on
      the input fractions, `material_list[0]`, the accumulation loop, the
      mixture density and mass fractions, the mean square particle
      velocity, the fit, and the mass fractions attached to the constructed
      mixture. */
  method GenerateMixedHugoniotMany(name: string, ms: seq<Component>, up: seq<real>, lib: Library)
    returns (r: Result<MixedEOS, Fault>)
    ensures r == MixManyAsWritten(name, ms, up, lib)
  {
    if IsClose(Sum(Fractions(ms)), 1.0) {
      return Err(FractionsSumToOne);
    }
    if |ms| == 0 {
      return Err(EmptyMaterialList);
    }
    var ps := PressureTrace(ms[0].eos, up);
    var zeroDensity, upList, masses, vols, names, xvs := CollectMaterials(ms, up, ps, lib);
    if zeroDensity {
      return Err(ZeroDivision);
    }
    if Sum(vols) == 0.0 || Sum(masses) == 0.0 {
      return Err(ZeroDivision);
    }
    var rhoMix := Sum(masses) / Sum(vols);
    var massFrac := DivideAll(masses, Sum(masses));
    CoreStages(name, ms, up, lib, ms[1..]);
    r := SampleStage(name, ms, up, lib, ps, upList, names, xvs, rhoMix, massFrac);
  }

  /** Lines 114-122 of `generate_mixed_hugoniot_many`: the mean square
      particle velocity, the shock samples after sample 0, the fit, and the
      mixture built from the collected names and fractions. */
  method SampleStage(name: string, ms: seq<Component>, up: seq<real>, lib: Library, ps: seq<real>,
                     upList: seq<seq<real>>, names: seq<string>, xvs: seq<real>, rhoMix: real, massFrac: seq<real>)
    returns (r: Result<MixedEOS, Fault>)
    requires |ms| > 0 && |massFrac| == |ms|
    requires ps == PressureTrace(ms[0].eos, up) && upList == UpTraces(ms, up, ps, lib)
    requires names == Names(ms[1..]) && xvs == Fractions(ms[1..])
    ensures r == MixManySamples(name, ms, up, lib, ms[1..], rhoMix, massFrac)
  {
    if !LaterSolvable(ms, ps) {
      return Err(NotFinite);
    }
    var arg := WeightedSquares(upList, massFrac, |up|);
    assert arg == MeanSquares(ms, up, lib, massFrac);
    if !NonnegativeAfterFirst(arg) {
      return Err(NotFinite);
    }
    var fit := FitSamples(ps, MixedUp(arg, lib), rhoMix, lib);
    if fit.Err? {
      return Err(fit.error);
    }
    var mixed := MixedEOS(EOS(name, rhoMix, fit.value.intercept, fit.value.slope), names, xvs, []);
    mixed := mixed.(mfracs := massFrac);
    return Ok(mixed);
  }

  /** A mixture the engine produces has nonzero total volume and mass, the
      density rho_mix = Σ rho_i·xv_i / Σ xv_i, the mass fractions
      m_i / Σm (one per material, in order) and these add up to exactly 1;
      its C0 and S are the fit through the samples after the first of
      P / (rho_mix · sqrt(Σ x_i · Up_list[i]²)). */
  lemma CoreBookkeeping(name: string, ms: seq<Component>, up: seq<real>, lib: Library, labels: seq<Component>)
    requires |ms| > 0 && MixManyCore(name, ms, up, lib, labels).Ok?
    ensures var m := MixManyCore(name, ms, up, lib, labels).value;
            && m.eos.name == name
            && m.components == Names(labels) && m.vfracs == Fractions(labels)
            && Sum(Fractions(ms)) != 0.0 && Sum(Masses(ms)) != 0.0
            && m.eos.rho0 == Sum(Masses(ms)) / Sum(Fractions(ms))
            && m.mfracs == DivideAll(Masses(ms), Sum(Masses(ms)))
            && Sum(m.mfracs) == 1.0
            && var arg := MeanSquares(ms, up, lib, m.mfracs);
               && NonnegativeAfterFirst(arg)
               && FitSamples(PressureTrace(ms[0].eos, up), MixedUp(arg, lib), m.eos.rho0, lib)
                  == Ok(Line(m.eos.C0, m.eos.S))
  {
    var masses := Masses(ms);
    var total := Sum(masses);
    var vsum := Sum(Fractions(ms));
    var rhoMix := total / vsum;
    var mf := DivideAll(masses, total);
    CoreStages(name, ms, up, lib, labels);
    var r := MixManySamples(name, ms, up, lib, labels, rhoMix, mf);
    assert r.value.eos.rho0 == rhoMix && r.value.mfracs == mf;
    SharesSumToOne(masses);
  }

  /** Past its zero-division checks the engine hands rho_mix = Σm / Σxv and
      the mass fractions m_i / Σm to the sample stage. */
  lemma CoreStages(name: string, ms: seq<Component>, up: seq<real>, lib: Library, labels: seq<Component>)
    requires |ms| > 0 && DensitiesNonzero(ms) && Sum(Fractions(ms)) != 0.0 && Sum(Masses(ms)) != 0.0
    ensures MixManyCore(name, ms, up, lib, labels)
            == MixManySamples(name, ms, up, lib, labels, Sum(Masses(ms)) / Sum(Fractions(ms)),
                              DivideAll(Masses(ms), Sum(Masses(ms))))
  {
    assert Volumes(ms) == Fractions(ms);
  }

  /** With nonnegative densities and fractions, each mass fraction lies in [0, 1]. */
  lemma MassFractionsInUnitInterval(ms: seq<Component>)
    requires forall i :: 0 <= i < |ms| ==> 0.0 <= ms[i].eos.rho0 && 0.0 <= ms[i].vfrac
    requires Sum(Masses(ms)) != 0.0
    ensures forall i :: 0 <= i < |ms| ==>
              0.0 <= DivideAll(Masses(ms), Sum(Masses(ms)))[i] <= 1.0
  {
    var masses := Masses(ms);
    var total := Sum(masses);
    var mf := DivideAll(masses, total);
    SumBoundsTerms(masses);
    forall i | 0 <= i < |ms|
      ensures 0.0 <= mf[i] <= 1.0
    {
      ShareInUnitInterval(mf[i], total, masses[i]);
    }
  }

  /** x = m / t lies in [0, 1] when 0 <= m <= t and t > 0. */
  lemma ShareInUnitInterval(x: real, t: real, m: real)
    requires t > 0.0 && 0.0 <= m <= t && x * t == m
    ensures 0.0 <= x <= 1.0
  {
  }

  /** Every entry of `Up_list` is a particle-velocity trace at the first
      material's pressures: at every sample after the first, which are the
      samples the fit sees, material i reaches pressure P[k] at Up_list[i][k]. */
  lemma TracesShareFirstPressure(ms: seq<Component>, up: seq<real>, lib: Library)
    requires SqrtSound(lib) && |ms| > 0
    requires LaterSolvable(ms, PressureTrace(ms[0].eos, up))
    ensures var ps := PressureTrace(ms[0].eos, up);
            var traces := UpTraces(ms, up, ps, lib);
            forall i, k :: 0 <= i < |ms| && 1 <= k < |up| ==>
              Pressure(ms[i].eos, traces[i][k]) == ps[k]
  {
    var ps := PressureTrace(ms[0].eos, up);
    var traces := UpTraces(ms, up, ps, lib);
    forall i, k | 0 <= i < |ms| && 1 <= k < |up|
      ensures Pressure(ms[i].eos, traces[i][k]) == ps[k]
    {
      if i > 0 {
        assert SolveUpDefined(ms[i].eos, ps[k]);
        PressureInvertsSolveUp(ms[i].eos, ps[k], lib);
      }
    }
  }

  /** As written, the engine rejects exactly the material lists whose
      fractions are close to 1, which includes every list that sums to 1. */
  lemma AsWrittenRejectsUnitSums(name: string, ms: seq<Component>, up: seq<real>, lib: Library)
    requires Sum(Fractions(ms)) == 1.0
    ensures MixManyAsWritten(name, ms, up, lib) == Err(FractionsSumToOne)
  {
    assert Abs(Sum(Fractions(ms)) - 1.0) == 0.0;
  }

  /** Two half-and-half materials: as written, the guard raises; as intended,
      it lets the list through. */
  lemma GuardInvertedExample(a: EOS, b: EOS, up: seq<real>, lib: Library)
    ensures MixManyAsWritten("mix", [Component(a, 0.5), Component(b, 0.5)], up, lib) == Err(FractionsSumToOne)
    ensures MixManyIntended("mix", [Component(a, 0.5), Component(b, 0.5)], up, lib) != Err(FractionsDoNotSumToOne)
  {
    var ms := [Component(a, 0.5), Component(b, 0.5)];
    assert Fractions(ms) == [0.5, 0.5];
    SumPair(0.5, 0.5);
  }

  /** As written, a produced mixture lists the names and fractions of all
      materials but the first, one fewer than its mass fractions. */
  lemma AsWrittenDropsFirstMaterial(name: string, ms: seq<Component>, up: seq<real>, lib: Library)
    requires MixManyAsWritten(name, ms, up, lib).Ok?
    ensures var m := MixManyAsWritten(name, ms, up, lib).value;
            && m.components == Names(ms[1..]) && m.vfracs == Fractions(ms[1..])
            && |m.components| + 1 == |m.mfracs| == |ms|
  {
    assert ms != [];
    CoreBookkeeping(name, ms, up, lib, ms[1..]);
  }

  /** The documented behaviour: a produced mixture names every material in
      order with its volume fraction, the volume fractions are close to 1,
      the mass fractions add up to 1, and rho_mix = Σ rho_i·xv_i / Σ xv_i. */
  lemma IntendedBookkeeping(name: string, ms: seq<Component>, up: seq<real>, lib: Library)
    requires MixManyIntended(name, ms, up, lib).Ok?
    ensures var m := MixManyIntended(name, ms, up, lib).value;
            && m.eos.name == name
            && m.components == Names(ms) && m.vfracs == Fractions(ms)
            && IsClose(Sum(m.vfracs), 1.0)
            && |m.mfracs| == |ms| && Sum(m.mfracs) == 1.0
            && m.eos.rho0 == Sum(Masses(ms)) / Sum(m.vfracs)
            && var arg := MeanSquares(ms, up, lib, m.mfracs);
               FitSamples(PressureTrace(ms[0].eos, up), MixedUp(arg, lib), m.eos.rho0, lib)
               == Ok(Line(m.eos.C0, m.eos.S))
  {
    assert ms != [];
    assert MixManyIntended(name, ms, up, lib) == MixManyCore(name, ms, up, lib, ms);
    CoreBookkeeping(name, ms, up, lib, ms);
  }

  /** For a two-entry list, the N-material sample stage is the two-material one. */
  lemma PairSamplesAgree(name: string, m1: EOS, m2: EOS, vx: real, up: seq<real>, lib: Library, x1: real, rhoMix: real)
    ensures var ms := [Component(m1, vx), Component(m2, 1.0 - vx)];
            MixManySamples(name, ms, up, lib, ms, rhoMix, [x1, 1.0 - x1])
            == MixTwoSamples(name, m1, m2, vx, up, x1, rhoMix, lib)
  {
    var ms := [Component(m1, vx), Component(m2, 1.0 - vx)];
    var mf := [x1, 1.0 - x1];
    var ps := PressureTrace(m1, up);
    assert ms[1].eos == m2;
    assert LaterSolvable(ms, ps) <==> SolvableAfterFirst(m2, ps);
    assert Names(ms) == [m1.name, m2.name];
    assert Fractions(ms) == [vx, 1.0 - vx];
    if SolvableAfterFirst(m2, ps) {
      var up2 := SolveUpTrace(m2, ps, lib);
      assert UpTraces(ms, up, ps, lib) == [up, up2];
      PairSquaresAgree(up, up2, x1);
    }
  }

  /** With two traces, `sum(up**2 * x ...)` is the two-material mean square. */
  lemma PairSquaresAgree(up: seq<real>, up2: seq<real>, x1: real)
    requires |up2| == |up|
    ensures TracesOfLength([up, up2], |up|)
    ensures WeightedSquares([up, up2], [x1, 1.0 - x1], |up|) == MixedSquares2(up, up2, x1)
  {
    var traces := [up, up2];
    var mf := [x1, 1.0 - x1];
    var many := WeightedSquares(traces, mf, |up|);
    var two := MixedSquares2(up, up2, x1);
    forall k | 0 <= k < |up|
      ensures many[k] == two[k]
    {
      var w := WeightedTerms(traces, mf, |up|, k);
      assert |w| == 2 && traces[0][k] == up[k] && traces[1][k] == up2[k];
      assert w[0] == up[k] * up[k] * x1;
      assert w[1] == up2[k] * up2[k] * (1.0 - x1);
      assert w == [up[k] * up[k] * x1, up2[k] * up2[k] * (1.0 - x1)];
      SumPair(w[0], w[1]);
    }
  }

  /** The masses of [(material1, vx), (material2, 1 − vx)]. */
  lemma PairMasses(m1: EOS, m2: EOS, vx: real)
    ensures Masses([Component(m1, vx), Component(m2, 1.0 - vx)]) == [m1.rho0 * vx, m2.rho0 * (1.0 - vx)]
    ensures Sum(Masses([Component(m1, vx), Component(m2, 1.0 - vx)])) == m1.rho0 * vx + m2.rho0 * (1.0 - vx)
  {
    var ms := [Component(m1, vx), Component(m2, 1.0 - vx)];
    assert Mass(ms[0]) == m1.rho0 * vx && Mass(ms[1]) == m2.rho0 * (1.0 - vx);
    assert |Masses(ms)| == 2 && Masses(ms)[0] == Mass(ms[0]) && Masses(ms)[1] == Mass(ms[1]);
    SumPair(m1.rho0 * vx, m2.rho0 * (1.0 - vx));
  }

  /** The shares of two masses are [x1, 1 − x1] when x1 is the first one's share. */
  lemma PairShares(mass1: real, mass2: real, x1: real)
    requires mass1 + mass2 != 0.0 && x1 * (mass1 + mass2) == mass1
    ensures DivideAll([mass1, mass2], mass1 + mass2) == [x1, 1.0 - x1]
  {
    var total := mass1 + mass2;
    var mf := DivideAll([mass1, mass2], total);
    CancelNonzero(mf[0], x1, total);
    assert (1.0 - x1) * total == mass2;
    CancelNonzero(mf[1], 1.0 - x1, total);
  }

  /** The fractions [vx, 1 − vx] pass the documented guard. */
  lemma PairPassesGuard(m1: EOS, m2: EOS, vx: real)
    ensures Fractions([Component(m1, vx), Component(m2, 1.0 - vx)]) == [vx, 1.0 - vx]
    ensures Sum(Fractions([Component(m1, vx), Component(m2, 1.0 - vx)])) == 1.0
  {
    SumPair(vx, 1.0 - vx);
  }

  /** Past the zero divisions, the N-material core on the pair list and the
      two-material generator hand the same density and mass fractions to
      the same sample stage. */
  lemma PairCoreAgrees(name: string, m1: EOS, m2: EOS, vx: real, up: seq<real>, lib: Library)
    requires m1.rho0 != 0.0 && m2.rho0 != 0.0 && m1.rho0 * vx + m2.rho0 * (1.0 - vx) != 0.0
    ensures MixManyCore(name, [Component(m1, vx), Component(m2, 1.0 - vx)], up, lib, [Component(m1, vx), Component(m2, 1.0 - vx)])
            == GenerateMixedHugoniot(name, m1, m2, vx, up, lib)
  {
    assert GenerateMixedHugoniot(name, m1, m2, vx, up, lib) == MixWithMass(name, m1, m2, vx, up, lib);
    PairCoreMatchesTwo(name, m1, m2, vx, up, lib);
  }

  /** For the pair list, the N-material core is the two-material generator
      past its divisions. */
  lemma PairCoreMatchesTwo(name: string, m1: EOS, m2: EOS, vx: real, up: seq<real>, lib: Library)
    requires m1.rho0 != 0.0 && m2.rho0 != 0.0 && m1.rho0 * vx + m2.rho0 * (1.0 - vx) != 0.0
    ensures MixManyCore(name, [Component(m1, vx), Component(m2, 1.0 - vx)], up, lib, [Component(m1, vx), Component(m2, 1.0 - vx)])
            == MixWithMass(name, m1, m2, vx, up, lib)
  {
    var x1 := ConvertVolfracToMassfrac(m1.rho0, m2.rho0, vx);
    var rhoMix := MixtureDensity2(m1.rho0, m2.rho0, vx);
    assert MixWithMass(name, m1, m2, vx, up, lib) == MixTwoSamples(name, m1, m2, vx, up, x1, rhoMix, lib);
    PairCoreStage(name, m1, m2, vx, up, lib);
    PairSamplesAgree(name, m1, m2, vx, up, lib, x1, rhoMix);
  }

  /** For the pair list, the N-material core hands the two-material density
      and mass fractions to the sample stage. */
  lemma PairCoreStage(name: string, m1: EOS, m2: EOS, vx: real, up: seq<real>, lib: Library)
    requires m1.rho0 != 0.0 && m2.rho0 != 0.0 && m1.rho0 * vx + m2.rho0 * (1.0 - vx) != 0.0
    ensures var ms := [Component(m1, vx), Component(m2, 1.0 - vx)];
            var x1 := ConvertVolfracToMassfrac(m1.rho0, m2.rho0, vx);
            MixManyCore(name, ms, up, lib, ms)
            == MixManySamples(name, ms, up, lib, ms, MixtureDensity2(m1.rho0, m2.rho0, vx), [x1, 1.0 - x1])
  {
    var ms := [Component(m1, vx), Component(m2, 1.0 - vx)];
    PairStageArguments(m1, m2, vx);
    assert DensitiesNonzero(ms) by {
      assert ms[0].eos == m1 && ms[1].eos == m2;
    }
    CoreStages(name, ms, up, lib, ms);
  }

  /** For the pair list, the N-material density Σm / Σxv and shares m_i / Σm
      are the two-material density and [x1, 1 − x1]. */
  lemma PairStageArguments(m1: EOS, m2: EOS, vx: real)
    requires m1.rho0 != 0.0 && m2.rho0 != 0.0 && m1.rho0 * vx + m2.rho0 * (1.0 - vx) != 0.0
    ensures var ms := [Component(m1, vx), Component(m2, 1.0 - vx)];
            && Sum(Fractions(ms)) == 1.0
            && Sum(Masses(ms)) != 0.0
            && Sum(Masses(ms)) / Sum(Fractions(ms)) == MixtureDensity2(m1.rho0, m2.rho0, vx)
            && DivideAll(Masses(ms), Sum(Masses(ms))) == [ConvertVolfracToMassfrac(m1.rho0, m2.rho0, vx), 1.0 - ConvertVolfracToMassfrac(m1.rho0, m2.rho0, vx)]
  {
    var x1 := ConvertVolfracToMassfrac(m1.rho0, m2.rho0, vx);
    PairPassesGuard(m1, m2, vx);
    PairMasses(m1, m2, vx);
    PairShares(m1.rho0 * vx, m2.rho0 * (1.0 - vx), x1);
  }

  /** The documented N-material engine, given the list
      [(material1, vx), (material2, 1 − vx)], computes exactly what the
      two-material `generate_mixed_hugoniot` computes: the same errors, and
      the same mixture (density, fit, names, volume and mass fractions). */
  lemma ManyAgreesWithTwo(name: string, m1: EOS, m2: EOS, vx: real, up: seq<real>, lib: Library)
    ensures MixManyIntended(name, [Component(m1, vx), Component(m2, 1.0 - vx)], up, lib)
            == GenerateMixedHugoniot(name, m1, m2, vx, up, lib)
  {
    var ms := [Component(m1, vx), Component(m2, 1.0 - vx)];
    PairPassesGuard(m1, m2, vx);
    assert MixManyIntended(name, ms, up, lib) == MixManyCore(name, ms, up, lib, ms) by {
      assert Abs(Sum(Fractions(ms)) - 1.0) == 0.0;
    }
    if m1.rho0 == 0.0 || m2.rho0 == 0.0 || m1.rho0 * vx + m2.rho0 * (1.0 - vx) == 0.0 {
      PairZeroDivision(name, m1, m2, vx, up, lib);
    } else {
      PairCoreAgrees(name, m1, m2, vx, up, lib);
    }
  }

  /** A zero density or a zero total mass makes the N-material core divide
      by zero on the pair list, as it does the two-material generator. */
  lemma PairZeroDivision(name: string, m1: EOS, m2: EOS, vx: real, up: seq<real>, lib: Library)
    requires m1.rho0 == 0.0 || m2.rho0 == 0.0 || m1.rho0 * vx + m2.rho0 * (1.0 - vx) == 0.0
    ensures MixManyCore(name, [Component(m1, vx), Component(m2, 1.0 - vx)], up, lib,
                        [Component(m1, vx), Component(m2, 1.0 - vx)]) == Err(ZeroDivision)
  {
    var ms := [Component(m1, vx), Component(m2, 1.0 - vx)];
    if m1.rho0 == 0.0 || m2.rho0 == 0.0 {
      assert !DensitiesNonzero(ms) by {
        assert ms[0].eos == m1 && ms[1].eos == m2;
      }
    } else {
      PairMasses(m1, m2, vx);
    }
  }
}
