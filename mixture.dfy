/** The mixture side of src/components.py: `MixedHugoniotEOS`,
    `convert_volfrac_to_massfrac`, the two-material `generate_mixed_hugoniot`,
    and the sample handling it shares with the N-material engine. */
module Mixture {
  import opened Wrappers
  import opened Numerics
  import opened Hugoniot

  /** `MixedHugoniotEOS`: the fitted mixture Hugoniot, the ordered component
      names, their volume fractions, and the mass fractions that the
      generators attach after construction. */
  datatype MixedEOS = MixedEOS(eos: EOS, components: seq<string>, vfracs: seq<real>, mfracs: seq<real>)

  /** One `(HugoniotEOS, volume fraction)` entry of a material list. */
  datatype Component = Component(eos: EOS, vfrac: real)

  /** Why a mixture generator produces no mixture. */
  datatype Fault =
    | FractionsSumToOne       // the ValueError raised by the guard as written
    | FractionsDoNotSumToOne  // the ValueError the docstring documents
    | EmptyMaterialList       // IndexError on material_list[0]
    | ZeroDivision            // ZeroDivisionError on a Python float division
    | NotFinite               // numpy would yield NaN or inf (0/0, sqrt of a negative)
    | FitFailed               // the least-squares routine raised

  /** `convert_volfrac_to_massfrac`: material 1's share of the mass when it
      fills the volume fraction vx1 and material 2 fills the rest. */
  function ConvertVolfracToMassfrac(rho1: real, rho2: real, vx1: real): (x1: real)
    requires rho1 * vx1 + rho2 * (1.0 - vx1) != 0.0
    ensures rho1 * vx1 == 0.0 ==> x1 == 0.0
    ensures rho2 * (1.0 - vx1) == 0.0 ==> x1 == 1.0
  {
    var mass1 := rho1 * vx1;
    var mass2 := rho2 * (1.0 - vx1);
    assert mass2 == 0.0 ==> mass1 / (mass1 + mass2) == 1.0 by {
      if mass2 == 0.0 {
        CancelNonzero(mass1 / (mass1 + mass2), 1.0, mass1 + mass2);
      }
    }
    mass1 / (mass1 + mass2)
  }

  /** The mass fraction x1 is material 1's share of the total mass
      rho1·vx1 + rho2·(1 − vx1), so 1 − x1 is material 2's share; equal
      densities leave the fraction unchanged, and a pure material keeps all
      or none of the mass. */
  lemma MassFractionShares(rho1: real, rho2: real, vx1: real)
    requires rho1 * vx1 + rho2 * (1.0 - vx1) != 0.0
    ensures var x1 := ConvertVolfracToMassfrac(rho1, rho2, vx1);
            && x1 * (rho1 * vx1 + rho2 * (1.0 - vx1)) == rho1 * vx1
            && (1.0 - x1) * (rho1 * vx1 + rho2 * (1.0 - vx1)) == rho2 * (1.0 - vx1)
    ensures rho1 == rho2 ==> ConvertVolfracToMassfrac(rho1, rho2, vx1) == vx1
    ensures vx1 == 1.0 ==> ConvertVolfracToMassfrac(rho1, rho2, vx1) == 1.0
    ensures vx1 == 0.0 ==> ConvertVolfracToMassfrac(rho1, rho2, vx1) == 0.0
  {
    var mass1 := rho1 * vx1;
    var mass2 := rho2 * (1.0 - vx1);
    var total := mass1 + mass2;
    var q := mass1 / total;
    assert q == ConvertVolfracToMassfrac(rho1, rho2, vx1);
    assert q * total == mass1;
    assert (1.0 - q) * total == total - q * total;
    if rho1 == rho2 {
      assert total == rho1;
      CancelNonzero(q, vx1, total);
    }
    if vx1 == 1.0 {
      assert mass2 == 0.0;
      CancelNonzero(q, 1.0, total);
    }
    if vx1 == 0.0 {
      assert mass1 == 0.0;
      CancelNonzero(q, 0.0, total);
    }
  }

  /** With nonnegative densities and 0 <= vx1 <= 1 the mass fraction lies in [0, 1]. */
  lemma MassFractionInUnitInterval(rho1: real, rho2: real, vx1: real)
    requires rho1 >= 0.0 && rho2 >= 0.0 && 0.0 <= vx1 <= 1.0
    requires rho1 * vx1 + rho2 * (1.0 - vx1) != 0.0
    ensures 0.0 <= ConvertVolfracToMassfrac(rho1, rho2, vx1) <= 1.0
  {
    ProductSign(rho1, vx1);
    ProductSign(rho2, 1.0 - vx1);
    MassFractionShares(rho1, rho2, vx1);
    var total := rho1 * vx1 + rho2 * (1.0 - vx1);
    var x := ConvertVolfracToMassfrac(rho1, rho2, vx1);
    var y := 1.0 - x;
    assert x * total == rho1 * vx1;
    assert y * total == rho2 * (1.0 - vx1);
    ScaleOrder(total, x, 0.0);
    ScaleOrder(total, y, 0.0);
    assert total * x == x * total && total * y == y * total;
  }

  /** For a proper two-material mixture (positive densities, 0 < vx1 < 1)
      material 1's mass fraction exceeds its volume fraction exactly when it
      is the denser material. */
  lemma DenserMaterialGainsMass(rho1: real, rho2: real, vx1: real)
    requires rho1 > 0.0 && rho2 > 0.0 && 0.0 < vx1 < 1.0
    ensures rho1 * vx1 + rho2 * (1.0 - vx1) > 0.0
    ensures ConvertVolfracToMassfrac(rho1, rho2, vx1) > vx1 <==> rho1 > rho2
  {
    ProductSign(rho1, vx1);
    ProductSign(rho2, 1.0 - vx1);
    MassFractionShares(rho1, rho2, vx1);
    ShareExceedsVolume(rho1, rho2, vx1, ConvertVolfracToMassfrac(rho1, rho2, vx1));
  }

  /** A share x of the mass rho1·v + rho2·(1 − v) equal to rho1·v exceeds v
      exactly when rho1 > rho2. */
  lemma ShareExceedsVolume(rho1: real, rho2: real, v: real, x: real)
    requires rho1 > 0.0 && rho2 > 0.0 && 0.0 < v < 1.0
    requires x * (rho1 * v + rho2 * (1.0 - v)) == rho1 * v
    ensures x > v <==> rho1 > rho2
  {
    var w := 1.0 - v;
    var mass1 := rho1 * v;
    var mass2 := rho2 * w;
    var total := mass1 + mass2;
    ScaleLess(v, 0.0, rho1);
    ScaleLess(w, 0.0, rho2);
    assert 0.0 < mass1 && 0.0 < mass2;
    assert total * x == mass1;
    // x > v  <=>  total·v < mass1  <=>  total < rho1  <=>  rho2·w < rho1·w  <=>  rho2 < rho1
    ScaleOrder(total, v, x);
    assert x > v <==> total * v < mass1;
    BelowScaled(total, v, rho1, mass1);
    assert total * v < mass1 <==> total < rho1;
    assert rho1 - mass1 == rho1 * w;
    assert total < rho1 <==> mass2 < rho1 * w;
    ScaleOrder(w, rho2, rho1);
    assert mass2 < rho1 * w <==> rho2 < rho1;
  }

  /** For v > 0 and m = v·r: t·v < m exactly when t < r. */
  lemma BelowScaled(t: real, v: real, r: real, m: real)
    requires 0.0 < v && m == v * r
    ensures t * v < m <==> t < r
  {
    ScaleOrder(v, t, r);
    assert v * t == t * v;
  }

  /** `numpy.sqrt` applied to an array. */
  function MixedUp(arg: seq<real>, lib: Library): (u: seq<real>)
    ensures |u| == |arg|
    ensures SqrtSound(lib) ==> forall k :: 0 <= k < |arg| && 0.0 <= arg[k] ==> 0.0 <= u[k] && u[k] * u[k] == arg[k]
  {
    seq(|arg|, k requires 0 <= k < |arg| => lib.sqrt(arg[k]))
  }

  predicate AllNonnegative(a: seq<real>)
  {
    forall k :: 0 <= k < |a| ==> 0.0 <= a[k]
  }

  /** No sample after the first is negative: `numpy.sqrt` yields no NaN
      where it reaches the fit. */
  predicate NonnegativeAfterFirst(a: seq<real>)
  {
    forall k :: 1 <= k < |a| ==> 0.0 <= a[k]
  }

  /** Python slicing `s[1:]`. */
  function Tail(s: seq<real>): (t: seq<real>)
    ensures |t| == if s == [] then 0 else |s| - 1
    ensures forall j :: 0 <= j < |t| ==> t[j] == s[j + 1]
  {
    if s == [] then [] else s[1..]
  }

  /** Every sample after the first has a nonzero divisor rho_mix · mixed_Up[k]. */
  predicate NonzeroAfterFirst(ps: seq<real>, mixedUp: seq<real>, rhoMix: real)
    requires |ps| == |mixedUp|
  {
    forall k :: 1 <= k < |ps| ==> rhoMix * mixedUp[k] != 0.0
  }

  /** `P[1:] / (rho_mix * mixed_Up[1:])`: the mixture shock velocity at every
      sample but the first, so that each retained sample satisfies the
      momentum jump condition P = rho_mix · Us · Up. */
  function ShockSamples(ps: seq<real>, mixedUp: seq<real>, rhoMix: real): (ys: seq<real>)
    requires |ps| == |mixedUp|
    requires NonzeroAfterFirst(ps, mixedUp, rhoMix)
    ensures |ys| == |Tail(ps)|
    ensures forall j :: 0 <= j < |ys| ==> ys[j] * (rhoMix * mixedUp[j + 1]) == ps[j + 1]
  {
    if ps == [] then []
    else seq(|ps| - 1, j requires 0 <= j < |ps| - 1 => var d := rhoMix * mixedUp[j + 1]; ps[j + 1] / d)
  }

  /** The last two steps of both generators: mixture shock velocities from
      the samples after the first, then the least-squares line through
      (mixed_Up[1:], mixed_Us). Sample 0 (typically up = 0) is left out, so a
      zero there is harmless; a zero divisor anywhere else is not. */
  function FitSamples(ps: seq<real>, mixedUp: seq<real>, rhoMix: real, lib: Library): (r: Result<Line, Fault>)
    requires |ps| == |mixedUp|
    ensures r == Err(NotFinite) <==> !NonzeroAfterFirst(ps, mixedUp, rhoMix)
    ensures r.Err? ==> r.error == NotFinite || r.error == FitFailed
    ensures r.Ok? ==> lib.fit(Tail(mixedUp), ShockSamples(ps, mixedUp, rhoMix)) == Some(r.value)
  {
    if !NonzeroAfterFirst(ps, mixedUp, rhoMix) then Err(NotFinite)
    else match lib.fit(Tail(mixedUp), ShockSamples(ps, mixedUp, rhoMix))
      case None => Err(FitFailed)
      case Some(l) => Ok(l)
  }

  /** `material1Up**2 * x_mat1 + material2Up**2 * (1 - x_mat1)`. */
  function MixedSquares2(up1: seq<real>, up2: seq<real>, x1: real): (a: seq<real>)
    requires |up1| == |up2|
    ensures |a| == |up1|
    ensures forall k :: 0 <= k < |a| ==> a[k] == up1[k] * up1[k] * x1 + up2[k] * up2[k] * (1.0 - x1)
  {
    seq(|up1|, k requires 0 <= k < |up1| => up1[k] * up1[k] * x1 + up2[k] * up2[k] * (1.0 - x1))
  }

  /** The mixture density (m1 + m2) / (m1/rho1 + m2/rho2) with masses
      m1 = rho1·vx and m2 = rho2·(1 − vx): the volumes add up to 1, so it is
      the volume-weighted mean of the two densities. */
  function MixtureDensity2(rho1: real, rho2: real, vx: real): (rho: real)
    requires rho1 != 0.0 && rho2 != 0.0
    ensures rho == rho1 * vx + rho2 * (1.0 - vx)
  {
    var w := 1.0 - vx;
    var mass1 := rho1 * vx;
    var mass2 := rho2 * w;
    assert mass1 / rho1 == vx;
    assert mass2 / rho2 == w;
    var volumes := mass1 / rho1 + mass2 / rho2;
    (mass1 + mass2) / volumes
  }

  /** The sample stage of `generate_mixed_hugoniot`, once the mass fraction
      x1 and mixture density rhoMix are known: material 2's particle
      velocities at material 1's pressures, the mass-weighted quadratic mean
      particle velocity, the line fit, and the resulting mixture, which
      carries both names in order, volume fractions [vx, 1 − vx] and, attached
      after construction, mass fractions [x1, 1 − x1]. */
  function MixTwoSamples(name: string, m1: EOS, m2: EOS, vx: real, up: seq<real>, x1: real, rhoMix: real, lib: Library): (r: Result<MixedEOS, Fault>)
    ensures r.Err? ==> r.error == NotFinite || r.error == FitFailed
    ensures var ps := PressureTrace(m1, up);
            var arg := MixedSquares2(up, SolveUpTrace(m2, ps, lib), x1);
            r == Err(NotFinite) <==>
              !SolvableAfterFirst(m2, ps) || !NonnegativeAfterFirst(arg)
              || !NonzeroAfterFirst(ps, MixedUp(arg, lib), rhoMix)
    ensures r.Ok? ==> SolvableAfterFirst(m2, PressureTrace(m1, up))
    ensures r.Ok? ==> r.value.eos.name == name && r.value.eos.rho0 == rhoMix
    ensures r.Ok? ==> r.value.components == [m1.name, m2.name]
    ensures r.Ok? ==> r.value.vfracs == [vx, 1.0 - vx] && r.value.mfracs == [x1, 1.0 - x1]
    ensures r.Ok? ==>
              var arg := MixedSquares2(up, SolveUpTrace(m2, PressureTrace(m1, up), lib), x1);
              && NonnegativeAfterFirst(arg)
              && FitSamples(PressureTrace(m1, up), MixedUp(arg, lib), rhoMix, lib)
                 == Ok(Line(r.value.eos.C0, r.value.eos.S))
  {
    var ps := PressureTrace(m1, up);
    var up2 := SolveUpTrace(m2, ps, lib);
    if !SolvableAfterFirst(m2, ps) then Err(NotFinite)
    else
      var arg := MixedSquares2(up, up2, x1);
      if !NonnegativeAfterFirst(arg) then Err(NotFinite)
      else match FitSamples(ps, MixedUp(arg, lib), rhoMix, lib)
        case Err(f) => Err(f)
        case Ok(l) =>
          var mixed := MixedEOS(EOS(name, rhoMix, l.intercept, l.slope), [m1.name, m2.name], [vx, 1.0 - vx], []);
          Ok(mixed.(mfracs := [x1, 1.0 - x1]))
  }

  /** `generate_mixed_hugoniot`: material 1's pressure trace over up is the
      common frame, the mass fraction comes from the volume fraction, the
      mixture density is the volume-weighted mean density, and the sample
      stage fits the mixture's (C0, S). Zero division happens exactly when
      a density or the total mass is zero; a successful mixture's volume and
      mass fractions each add up to 1. */
  function GenerateMixedHugoniot(name: string, m1: EOS, m2: EOS, vx: real, up: seq<real>, lib: Library): (r: Result<MixedEOS, Fault>)
    ensures r == Err(ZeroDivision) <==>
              m1.rho0 == 0.0 || m2.rho0 == 0.0 || m1.rho0 * vx + m2.rho0 * (1.0 - vx) == 0.0
    ensures r.Ok? ==> r.value.eos.name == name && r.value.components == [m1.name, m2.name]
    ensures r.Ok? ==> r.value.vfracs == [vx, 1.0 - vx]
    ensures r.Ok? ==> r.value.eos.rho0 == m1.rho0 * vx + m2.rho0 * (1.0 - vx)
    ensures r.Ok? ==> SolvableAfterFirst(m2, PressureTrace(m1, up))
  {
    var mass1 := m1.rho0 * vx;
    var mass2 := m2.rho0 * (1.0 - vx);
    if mass1 + mass2 == 0.0 || m1.rho0 == 0.0 || m2.rho0 == 0.0 then Err(ZeroDivision)
    else MixWithMass(name, m1, m2, vx, up, lib)
  }

  /** `generate_mixed_hugoniot` past its divisions: the mass fraction and the
      mixture density handed to the sample stage. */
  function MixWithMass(name: string, m1: EOS, m2: EOS, vx: real, up: seq<real>, lib: Library): (r: Result<MixedEOS, Fault>)
    requires m1.rho0 != 0.0 && m2.rho0 != 0.0 && m1.rho0 * vx + m2.rho0 * (1.0 - vx) != 0.0
    ensures r.Err? ==> r.error == NotFinite || r.error == FitFailed
    ensures r.Ok? ==> r.value.eos.name == name && r.value.components == [m1.name, m2.name]
    ensures r.Ok? ==> r.value.vfracs == [vx, 1.0 - vx]
    ensures r.Ok? ==> r.value.eos.rho0 == m1.rho0 * vx + m2.rho0 * (1.0 - vx)
    ensures r.Ok? ==>
              r.value.mfracs == [ConvertVolfracToMassfrac(m1.rho0, m2.rho0, vx), 1.0 - ConvertVolfracToMassfrac(m1.rho0, m2.rho0, vx)]
    ensures r.Ok? ==> SolvableAfterFirst(m2, PressureTrace(m1, up))
  {
    var x1 := ConvertVolfracToMassfrac(m1.rho0, m2.rho0, vx);
    var rhoMix := MixtureDensity2(m1.rho0, m2.rho0, vx);
    MixTwoSamples(name, m1, m2, vx, up, x1, rhoMix, lib)
  }

  /** A two-material mixture's volume fractions and mass fractions each add up to 1. */
  lemma GeneratedFractionsSumToOne(name: string, m1: EOS, m2: EOS, vx: real, up: seq<real>, lib: Library)
    requires GenerateMixedHugoniot(name, m1, m2, vx, up, lib).Ok?
    ensures m1.rho0 * vx + m2.rho0 * (1.0 - vx) != 0.0
    ensures var x1 := ConvertVolfracToMassfrac(m1.rho0, m2.rho0, vx);
            GenerateMixedHugoniot(name, m1, m2, vx, up, lib).value.mfracs == [x1, 1.0 - x1]
    ensures Sum(GenerateMixedHugoniot(name, m1, m2, vx, up, lib).value.vfracs) == 1.0
    ensures Sum(GenerateMixedHugoniot(name, m1, m2, vx, up, lib).value.mfracs) == 1.0
  {
    var r := MixWithMass(name, m1, m2, vx, up, lib);
    assert GenerateMixedHugoniot(name, m1, m2, vx, up, lib) == r;
    var x1 := ConvertVolfracToMassfrac(m1.rho0, m2.rho0, vx);
    SumPair(vx, 1.0 - vx);
    SumPair(x1, 1.0 - x1);
  }

  /** Reference particle velocities as the callers build them: the first
      nonnegative (typically 0), every later one positive. */
  predicate PositiveAfterFirst(up: seq<real>)
  {
    && (|up| > 0 ==> 0.0 <= up[0])
    && forall k :: 1 <= k < |up| ==> 0.0 < up[k]
  }

  /** Solving a same-parameter material at material 1's pressures gives back up. */
  lemma SameMaterialSolvesBack(m1: EOS, m2: EOS, up: seq<real>, lib: Library)
    requires SqrtSound(lib)
    requires m1.rho0 == m2.rho0 && m1.C0 == m2.C0 && m1.S == m2.S
    requires m1.rho0 > 0.0 && m1.C0 > 0.0 && m1.S > 0.0 && PositiveAfterFirst(up)
    ensures Solvable(m2, PressureTrace(m1, up))
    ensures SolveUpTrace(m2, PressureTrace(m1, up), lib) == up
  {
    var ps := PressureTrace(m1, up);
    var up2 := SolveUpTrace(m2, ps, lib);
    forall k | 0 <= k < |up|
      ensures SolveUpDefined(m2, ps[k]) && up2[k] == up[k]
    {
      SameMaterialSample(m1, m2, up[k], lib);
    }
  }

  /** One sample of `SameMaterialSolvesBack`. */
  lemma SameMaterialSample(m1: EOS, m2: EOS, u: real, lib: Library)
    requires SqrtSound(lib)
    requires m1.rho0 == m2.rho0 && m1.C0 == m2.C0 && m1.S == m2.S
    requires m1.rho0 > 0.0 && m1.C0 > 0.0 && m1.S > 0.0 && 0.0 <= u
    ensures SolveUpDefined(m2, Pressure(m1, u))
    ensures SolveUp(m2, Pressure(m1, u), lib) == u
  {
    assert m1 == m2 || Pressure(m2, u) == Pressure(m1, u);
    SolveUpInvertsPressure(m2, u, lib);
  }

  /** When both traces are up, the mass-weighted quadratic mean is up again. */
  lemma SameTraceMixedUp(up: seq<real>, x1: real, lib: Library)
    requires SqrtSound(lib) && PositiveAfterFirst(up)
    ensures AllNonnegative(MixedSquares2(up, up, x1))
    ensures MixedUp(MixedSquares2(up, up, x1), lib) == up
  {
    var arg := MixedSquares2(up, up, x1);
    var mixedUp := MixedUp(arg, lib);
    forall k | 0 <= k < |up|
      ensures arg[k] == up[k] * up[k] && mixedUp[k] == up[k]
    {
      var uu := up[k] * up[k];
      assert arg[k] == uu * x1 + uu * (1.0 - x1);
      SquareRootUnique(mixedUp[k], up[k]);
    }
  }

  /** A shock velocity y with P(u) = rho0 · y · u is the Hugoniot's own Us(u). */
  lemma ShockSampleOnHugoniot(m: EOS, u: real, y: real)
    requires m.rho0 * u != 0.0 && y * (m.rho0 * u) == Pressure(m, u)
    ensures y == ShockVelocity(m, u)
  {
    var d := m.rho0 * u;
    var us := ShockVelocity(m, u);
    var rus := m.rho0 * us;
    assert Pressure(m, u) == rus * u;
    assert rus * u == us * d;
    CancelNonzero(y, us, d);
  }

  /** A positive density times a positive particle velocity is never zero. */
  lemma PositiveDivisors(ps: seq<real>, up: seq<real>, rho: real)
    requires rho > 0.0 && PositiveAfterFirst(up) && |ps| == |up|
    ensures NonzeroAfterFirst(ps, up, rho)
  {
    forall k | 1 <= k < |up|
      ensures rho * up[k] != 0.0
    {
      ScaleLess(rho, 0.0, up[k]);
    }
  }

  /** The samples handed to the fit for a material's own pressures lie on its Hugoniot line. */
  lemma OwnSamplesOnHugoniot(m: EOS, up: seq<real>)
    requires m.rho0 > 0.0 && PositiveAfterFirst(up)
    ensures NonzeroAfterFirst(PressureTrace(m, up), up, m.rho0)
    ensures OnLine(Tail(up), ShockSamples(PressureTrace(m, up), up, m.rho0), Line(m.C0, m.S))
  {
    var ps := PressureTrace(m, up);
    PositiveDivisors(ps, up, m.rho0);
    var ys := ShockSamples(ps, up, m.rho0);
    var xs := Tail(up);
    assert |ys| == |xs| by {
      assert |ps| == |up|;
    }
    var l := Line(m.C0, m.S);
    assert l.intercept == m.C0 && l.slope == m.S;
    forall j | 0 <= j < |ys|
      ensures ys[j] == LineAt(l, xs[j])
    {
      OwnSampleAt(m, up, j);
      assert ys[j] == ShockVelocity(m, xs[j]);
    }
  }

  /** One sample of `OwnSamplesOnHugoniot`: the j-th shock velocity handed to the fit. */
  lemma OwnSampleAt(m: EOS, up: seq<real>, j: int)
    requires 0 <= j < |up| - 1 && NonzeroAfterFirst(PressureTrace(m, up), up, m.rho0)
    ensures ShockSamples(PressureTrace(m, up), up, m.rho0)[j] == ShockVelocity(m, up[j + 1])
  {
    var ps := PressureTrace(m, up);
    var ys := ShockSamples(ps, up, m.rho0);
    var u := up[j + 1];
    assert m.rho0 * u != 0.0;
    assert ys[j] * (m.rho0 * u) == Pressure(m, u) by {
      assert ys[j] * (m.rho0 * u) == ps[j + 1];
    }
    ShockSampleOnHugoniot(m, u, ys[j]);
  }

  /** The sample stage for two materials with the same parameters fits
      exactly their own Hugoniot line, whatever the mass fraction. */
  lemma IdenticalSamplesFitOwnLine(name: string, m1: EOS, m2: EOS, vx: real, up: seq<real>, x1: real, lib: Library)
    requires SqrtSound(lib) && FitExact(lib)
    requires m1.rho0 == m2.rho0 && m1.C0 == m2.C0 && m1.S == m2.S
    requires m1.rho0 > 0.0 && m1.C0 > 0.0 && m1.S > 0.0
    requires |up| >= 3 && PositiveAfterFirst(up) && up[1] != up[2]
    ensures MixTwoSamples(name, m1, m2, vx, up, x1, m1.rho0, lib)
            == Ok(MixedEOS(EOS(name, m1.rho0, m1.C0, m1.S), [m1.name, m2.name], [vx, 1.0 - vx], [x1, 1.0 - x1]))
  {
    var rho := m1.rho0;
    var ps := PressureTrace(m1, up);
    SameMaterialSolvesBack(m1, m2, up, lib);
    var up2 := SolveUpTrace(m2, ps, lib);
    assert up2 == up;
    var arg := MixedSquares2(up, up2, x1);
    SameTraceMixedUp(up, x1, lib);
    var mixedUp := MixedUp(arg, lib);
    assert mixedUp == up;
    OwnSamplesOnHugoniot(m1, up);
    var xs := Tail(up);
    var ys := ShockSamples(ps, up, rho);
    assert TwoDistinct(xs) by {
      assert xs[0] != xs[1];
    }
    assert lib.fit(xs, ys) == Some(Line(m1.C0, m1.S));
    assert FitSamples(ps, mixedUp, rho, lib) == Ok(Line(m1.C0, m1.S));
  }

  /** Mixing a material with a copy of itself, in any proportion, gives
      back that material: its density, and (for a least-squares fit) its C0
      and S, because every sample handed to the fit lies on its Hugoniot.
      The reference particle velocities must start at up >= 0, be positive
      after that, and include two distinct values after the first. */
  lemma IdenticalMaterialsReproduceHugoniot(name: string, m1: EOS, m2: EOS, vx: real, up: seq<real>, lib: Library)
    requires SqrtSound(lib) && FitExact(lib)
    requires m1.rho0 == m2.rho0 && m1.C0 == m2.C0 && m1.S == m2.S
    requires m1.rho0 > 0.0 && m1.C0 > 0.0 && m1.S > 0.0
    requires |up| >= 3 && PositiveAfterFirst(up) && up[1] != up[2]
    ensures GenerateMixedHugoniot(name, m1, m2, vx, up, lib)
            == Ok(MixedEOS(EOS(name, m1.rho0, m1.C0, m1.S), [m1.name, m2.name], [vx, 1.0 - vx], [vx, 1.0 - vx]))
  {
    var rho := m1.rho0;
    assert rho * vx + rho * (1.0 - vx) == rho;
    MassFractionShares(rho, rho, vx);
    assert MixtureDensity2(rho, rho, vx) == rho;
    IdenticalSamplesFitOwnLine(name, m1, m2, vx, up, vx, lib);
  }
  /** Sample 0 never reaches the fit, so a second material that has no real
      particle velocity at the first pressure sample alone still gives a
      finite mixture: with up = [−0.5, 1, 2], material (rho0 1, C0 1, S 10)
      cannot be solved at P[0] = −0.25, yet the generator does not report
      NotFinite. */
  lemma FirstSampleNotFiniteIgnored(lib: Library)
    requires SqrtSound(lib)
    ensures var a := EOS("a", 1.0, 1.0, 1.0);
            var b := EOS("b", 1.0, 1.0, 10.0);
            var up := [-0.5, 1.0, 2.0];
            && !SolveUpDefined(b, PressureTrace(a, up)[0])
            && GenerateMixedHugoniot("mix", a, b, 0.5, up, lib) != Err(NotFinite)
  {
    var a := EOS("a", 1.0, 1.0, 1.0);
    var b := EOS("b", 1.0, 1.0, 10.0);
    var up := [-0.5, 1.0, 2.0];
    ExamplePressures(a, b, up);
    MassFractionShares(1.0, 1.0, 0.5);
    assert ConvertVolfracToMassfrac(1.0, 1.0, 0.5) == 0.5;
    FiniteWhenLaterSamplesSolvable("mix", a, b, 0.5, up, lib);
  }

  /** The generator reports NotFinite only because of samples after the
      first: with nonzero densities and total mass, a positive mass
      fraction x1, nonzero reference velocities after the first, and
      material 2 solvable at every pressure after the first, it does not
      report NotFinite, whatever happens at sample 0. */
  lemma FiniteWhenLaterSamplesSolvable(name: string, m1: EOS, m2: EOS, vx: real, up: seq<real>, lib: Library)
    requires SqrtSound(lib)
    requires m1.rho0 != 0.0 && m2.rho0 != 0.0 && m1.rho0 * vx + m2.rho0 * (1.0 - vx) != 0.0
    requires 0.0 < ConvertVolfracToMassfrac(m1.rho0, m2.rho0, vx) <= 1.0
    requires forall k :: 1 <= k < |up| ==> up[k] != 0.0
    requires SolvableAfterFirst(m2, PressureTrace(m1, up))
    ensures GenerateMixedHugoniot(name, m1, m2, vx, up, lib) != Err(NotFinite)
  {
    var ps := PressureTrace(m1, up);
    var x1 := ConvertVolfracToMassfrac(m1.rho0, m2.rho0, vx);
    var rhoMix := MixtureDensity2(m1.rho0, m2.rho0, vx);
    assert GenerateMixedHugoniot(name, m1, m2, vx, up, lib) == MixTwoSamples(name, m1, m2, vx, up, x1, rhoMix, lib);
    MixedDivisorsNonzero(ps, up, SolveUpTrace(m2, ps, lib), x1, rhoMix, lib);
  }

  /** The pressures of material (1, 1, 1) at up = [−0.5, 1, 2] are
      [−0.25, 2, 6]; material (1, 1, 10) has a negative discriminant at the
      first of them only. */
  lemma ExamplePressures(a: EOS, b: EOS, up: seq<real>)
    requires a == EOS("a", 1.0, 1.0, 1.0) && b == EOS("b", 1.0, 1.0, 10.0) && up == [-0.5, 1.0, 2.0]
    ensures PressureTrace(a, up) == [-0.25, 2.0, 6.0]
    ensures !SolveUpDefined(b, -0.25) && SolvableAfterFirst(b, [-0.25, 2.0, 6.0])
  {
    var ps := PressureTrace(a, up);
    assert ps[0] == -0.25 && ps[1] == 2.0 && ps[2] == 6.0;
    assert Discriminant(b, -0.25) == -9.0;
    assert Discriminant(b, 2.0) == 81.0 && Discriminant(b, 6.0) == 241.0;
  }

  /** With nonzero reference velocities after the first, a positive mass
      fraction and a nonzero density, every divisor rho_mix · mixed_Up[k]
      after the first is nonzero, whatever the second trace. */
  lemma MixedDivisorsNonzero(ps: seq<real>, up: seq<real>, up2: seq<real>, x1: real, rhoMix: real, lib: Library)
    requires SqrtSound(lib) && |ps| == |up| == |up2| && 0.0 < x1 <= 1.0 && rhoMix != 0.0
    requires forall k :: 1 <= k < |up| ==> up[k] != 0.0
    ensures NonnegativeAfterFirst(MixedSquares2(up, up2, x1))
    ensures NonzeroAfterFirst(ps, MixedUp(MixedSquares2(up, up2, x1), lib), rhoMix)
  {
    var arg := MixedSquares2(up, up2, x1);
    var mixedUp := MixedUp(arg, lib);
    forall k | 1 <= k < |up|
      ensures 0.0 < arg[k] && rhoMix * mixedUp[k] != 0.0
    {
      MeanSquarePositive(up[k], up2[k], x1, arg[k]);
      assert mixedUp[k] * mixedUp[k] == arg[k];
    }
  }

  /** A mean square u²·x + v²·(1 − x) with u ≠ 0 and 0 < x <= 1 is positive. */
  lemma MeanSquarePositive(u: real, v: real, x: real, w: real)
    requires u != 0.0 && 0.0 < x <= 1.0 && w == u * u * x + v * v * (1.0 - x)
    ensures 0.0 < w
  {
    var uu := u * u;
    var vv := v * v;
    assert 0.0 < uu by {
      if u > 0.0 {
        SquareIncreasing(0.0, u);
      } else {
        SquareIncreasing(0.0, -u);
        assert (-u) * (-u) == uu;
      }
    }
    assert 0.0 <= vv by {
      if v >= 0.0 {
        ProductSign(v, v);
      } else {
        ProductSign(-v, -v);
        assert (-v) * (-v) == vv;
      }
    }
    ProductSign(uu, x);
    ProductSign(vv, 1.0 - x);
    assert w == uu * x + vv * (1.0 - x);
  }
}
