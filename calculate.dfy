/** The `/calculate` handler `post_calculate` of src/main.py: how the
    submitted form becomes the ordered material list, the reference
    particle velocities and the mixture name that reach the N-material
    engine. The form is a map from field names to strings, the material
    catalog a map from a material's name (the table's primary key) to its
    (rho0, C0, S), and string-to-number conversion an abstract partial
    parser. */
module Calculate {
  import opened Wrappers
  import opened Numerics
  import opened Hugoniot
  import opened Mixture
  import opened MixtureMany

  type Form = map<string, string>
  type Catalog = map<string, (real, real, real)>

  /** Python's `float(s)` and `int(s)`: None where they raise ValueError. */
  datatype Parsers = Parsers(toFloat: string -> Option<real>, toInt: string -> Option<int>)

  /** `form_data.get(key, default)`. */
  function Get(form: Form, key: string, default: string): string
  {
    if key in form then form[key] else default
  }

  function Digit(d: nat): char
    requires d < 10
  {
    "0123456789"[d]
  }

  predicate AllDigits(s: string)
  {
    forall k :: 0 <= k < |s| ==> '0' <= s[k] <= '9'
  }

  /** The number a string of decimal digits denotes. */
  function DigitsValue(s: string): nat
    requires AllDigits(s)
  {
    if s == [] then 0
    else DigitsValue(s[..|s| - 1]) * 10 + (s[|s| - 1] as int - '0' as int)
  }

  /** The decimal text of n, as an f-string renders an index. */
  function Decimal(n: nat): (s: string)
    ensures |s| >= 1
    ensures forall c :: c in s ==> '0' <= c <= '9'
  {
    if n < 10 then [Digit(n)] else Decimal(n / 10) + [Digit(n % 10)]
  }

  /** Decimal is the decimal rendering: its digits denote n. */
  lemma {:induction false} DecimalRoundTrip(n: nat)
    ensures AllDigits(Decimal(n)) && DigitsValue(Decimal(n)) == n
  {
    var s := Decimal(n);
    if n >= 10 {
      DecimalRoundTrip(n / 10);
      assert s[..|s| - 1] == Decimal(n / 10);
    }
  }

  /** Section keys built from different indices differ. */
  lemma DecimalInjective(a: nat, b: nat)
    ensures Decimal(a) == Decimal(b) ==> a == b
  {
    DecimalRoundTrip(a);
    DecimalRoundTrip(b);
  }

  /** `key.split("_")[-1]`: the text after the last underscore (all of key
      when it has none). */
  function LastField(key: string): (f: string)
    ensures |f| <= |key| && f == key[|key| - |f|..]
    ensures '_' !in f
    ensures |f| < |key| ==> key[|key| - |f| - 1] == '_'
  {
    if key == [] then []
    else if key[|key| - 1] == '_' then []
    else LastField(key[..|key| - 1]) + [key[|key| - 1]]
  }

  const TypePrefix: string := "material_type_"

  /** `key.startswith("material_type_")`. */
  predicate IsTypeKey(key: string)
  {
    |TypePrefix| <= |key| && key[..|TypePrefix|] == TypePrefix
  }

  /** The index a `material_type_<suffix>` key announces, if its suffix parses. */
  function AnnouncedIndex(key: string, p: Parsers): Option<int>
  {
    if IsTypeKey(key) then p.toInt(LastField(key)) else None
  }

  /** n is the number of material sections: the largest index announced by
      a `material_type_` key, or 0 when none announces a positive one. */
  ghost predicate IsMaterialCount(keys: set<string>, p: Parsers, n: int)
  {
    && 0 <= n
    && (forall k :: k in keys && AnnouncedIndex(k, p).Some? ==> AnnouncedIndex(k, p).value <= n)
    && (n == 0 || exists k :: k in keys && AnnouncedIndex(k, p) == Some(n))
  }

  /** A material count is at least every other material count. */
  lemma MaterialCountBound(keys: set<string>, p: Parsers, a: int, b: int)
    requires IsMaterialCount(keys, p, a) && IsMaterialCount(keys, p, b)
    ensures b <= a
  {
    if b != 0 {
      var k :| k in keys && AnnouncedIndex(k, p) == Some(b);
      assert AnnouncedIndex(k, p).value <= a;
    }
  }

  /** The material count of a key set is unique. */
  lemma MaterialCountUnique(keys: set<string>, p: Parsers, a: int, b: int)
    requires IsMaterialCount(keys, p, a) && IsMaterialCount(keys, p, b)
    ensures a == b
  {
    MaterialCountBound(keys, p, a, b);
    MaterialCountBound(keys, p, b, a);
  }

  /** One key of the scan: the count grows to the key's index when that is larger. */
  function CountStep(maxIdx: int, key: string, p: Parsers): int
  {
    match AnnouncedIndex(key, p)
    case Some(idx) => if idx > maxIdx then idx else maxIdx
    case None => maxIdx
  }

  /** Scanning one more key keeps the count of the keys seen so far. */
  lemma CountStepKeepsCount(seen: set<string>, key: string, p: Parsers, maxIdx: int)
    requires IsMaterialCount(seen, p, maxIdx)
    ensures IsMaterialCount(seen + {key}, p, CountStep(maxIdx, key, p))
  {
    var next := CountStep(maxIdx, key, p);
    if next != maxIdx {
      assert key in seen + {key} && AnnouncedIndex(key, p) == Some(next);
    } else if maxIdx != 0 {
      var k :| k in seen && AnnouncedIndex(k, p) == Some(maxIdx);
      assert k in seen + {key};
    }
  }

  /** Lines 309-316: scan the form keys, keeping the largest index a
      `material_type_` key announces; keys whose suffix does not parse are
      skipped. */
  method CountMaterials(form: Form, p: Parsers) returns (maxIdx: int)
    ensures IsMaterialCount(form.Keys, p, maxIdx)
  {
    maxIdx := 0;
    var keys := form.Keys;
    ghost var seen: set<string> := {};
    while keys != {}
      invariant keys <= form.Keys && seen == form.Keys - keys
      invariant IsMaterialCount(seen, p, maxIdx)
      decreases |keys|
    {
      var key :| key in keys;
      CountStepKeepsCount(seen, key, p, maxIdx);
      ghost var next := CountStep(maxIdx, key, p);
      if IsTypeKey(key) {
        var parsed := p.toInt(LastField(key));
        if parsed.Some? {
          var idx := parsed.value;
          if idx > maxIdx {
            maxIdx := idx;
          }
        }
      }
      assert maxIdx == next;
      keys := keys - {key};
      seen := seen + {key};
    }
  }

  /** Why `post_calculate` answers with an error paragraph. */
  datatype FormError =
    | NoMaterialSections            // no material_type_<i> key with i >= 1
    | FractionOutOfRange(i: nat)    // vfrac<i> parses but is outside [0, 1]
    | FractionInvalid(i: nat)       // vfrac<i> does not parse
    | PremadeNotSelected(i: nat)
    | PremadeNotFound(i: nat)
    | CustomNonPositive(i: nat)     // rho0 <= 0 or C0 <= 0
    | CustomInvalid(i: nat)         // a custom parameter does not parse
    | UnknownType(i: nat)
    | TypeMissing(i: nat)
    | NoActiveMaterials
    | FractionsNotOne               // the active fractions are not close to 1
    | FitParamsInvalid
    | FitRangeEmpty                 // upmin_fit >= upmax_fit
    | TooFewPoints                  // num_points_fit < 10
    | CallFailed                    // the engine call raises before computing (TypeError)
    | CalculationFailed(f: Fault)   // the engine raises or yields no finite mixture

  /** Lines 327-329: the text of material i's volume fraction; a missing or
      empty field counts as "0". */
  function FractionText(form: Form, i: nat): (t: string)
    ensures t != ""
    ensures "vfrac" + Decimal(i) in form && form["vfrac" + Decimal(i)] != "" ==> t == form["vfrac" + Decimal(i)]
    ensures !("vfrac" + Decimal(i) in form && form["vfrac" + Decimal(i)] != "") ==> t == "0"
  {
    var s := Get(form, "vfrac" + Decimal(i), "0");
    if s == "" then "0" else s
  }

  /** Lines 330-335: material i's volume fraction, accepted exactly when its
      text parses to a number in [0, 1]. */
  function ReadFraction(form: Form, p: Parsers, i: nat): (r: Result<real, FormError>)
    ensures r.Ok? ==> 0.0 <= r.value <= 1.0
    ensures r.Err? ==> r.error == FractionInvalid(i) || r.error == FractionOutOfRange(i)
    ensures p.toFloat(FractionText(form, i)).None? <==> r == Err(FractionInvalid(i))
    ensures p.toFloat(FractionText(form, i)).Some? ==>
              var v := p.toFloat(FractionText(form, i)).value;
              && (r.Ok? <==> 0.0 <= v <= 1.0)
              && (r.Ok? ==> r.value == v)
              && (r.Err? ==> r.error == FractionOutOfRange(i))
  {
    match p.toFloat(FractionText(form, i))
    case None => Err(FractionInvalid(i))
    case Some(v) => if !(0.0 <= v <= 1.0) then Err(FractionOutOfRange(i)) else Ok(v)
  }

  /** `float("0")` is 0.0. */
  predicate ParsesZero(p: Parsers)
  {
    p.toFloat("0") == Some(0.0)
  }

  /** A missing or empty fraction reads as 0: the section is skipped when
      its material cannot be built and plotted with fraction 0 when it can,
      never aborting the loop. */
  lemma MissingFractionIsZero(form: Form, catalog: Catalog, p: Parsers, i: nat)
    requires ParsesZero(p)
    requires !("vfrac" + Decimal(i) in form && form["vfrac" + Decimal(i)] != "")
    ensures ReadFraction(form, p, i) == Ok(0.0)
    ensures ResolveMaterial(form, catalog, p, i).Invalid? ==> StepAt(form, catalog, p, i) == Skip
    ensures ResolveMaterial(form, catalog, p, i).Built? ==>
              StepAt(form, catalog, p, i) == Add(ResolveMaterial(form, catalog, p, i).eos, 0.0)
  {
    assert FractionText(form, i) == "0";
  }

  /** The errors that name the material section they come from. */
  predicate SectionError(e: FormError)
  {
    || e.FractionOutOfRange? || e.FractionInvalid? || e.PremadeNotSelected? || e.PremadeNotFound?
    || e.CustomNonPositive? || e.CustomInvalid? || e.UnknownType? || e.TypeMissing?
  }

  /** What the form says about material i: a material, or why there is none. */
  datatype Resolution = Built(eos: EOS) | Invalid(error: FormError)

  /** `material_type_<i>`, empty when missing. */
  function MaterialType(form: Form, i: nat): string
  {
    Get(form, "material_type_" + Decimal(i), "")
  }

  /** `material<i>_select`, empty when missing. */
  function Selection(form: Form, i: nat): string
  {
    Get(form, "material" + Decimal(i) + "_select", "")
  }

  /** A custom material's name, `CustomMat<i>` when missing. */
  function CustomName(form: Form, i: nat): string
  {
    Get(form, "name" + Decimal(i), "CustomMat" + Decimal(i))
  }

  /** A custom material's rho0, C0 and S, each parsed from its field ("0" when missing). */
  datatype CustomFields = CustomFields(rho0: Option<real>, C0: Option<real>, S: Option<real>)

  function ReadCustomFields(form: Form, p: Parsers, i: nat): CustomFields
  {
    CustomFields(p.toFloat(Get(form, "rho0_" + Decimal(i), "0")),
                 p.toFloat(Get(form, "C0_" + Decimal(i), "0")),
                 p.toFloat(Get(form, "S_" + Decimal(i), "0")))
  }

  /** Lines 337-368: build material i from the catalog ("premade") or from
      its own parameters ("custom"). A premade material is the catalog entry
      its selection names; a custom one is built exactly when its three
      parameters parse and rho0 and C0 are positive; every other case is
      the error that names what is wrong with section i. */
  function ResolveMaterial(form: Form, catalog: Catalog, p: Parsers, i: nat): (m: Resolution)
    ensures m.Invalid? ==> m.error in {PremadeNotSelected(i), PremadeNotFound(i), CustomNonPositive(i),
                                       CustomInvalid(i), UnknownType(i), TypeMissing(i)}
    ensures m.Built? ==> MaterialType(form, i) == "premade" || MaterialType(form, i) == "custom"
    ensures MaterialType(form, i) == "premade" ==>
              var sel := Selection(form, i);
              && (m == Invalid(PremadeNotSelected(i)) <==> sel == "")
              && (m == Invalid(PremadeNotFound(i)) <==> sel != "" && sel !in catalog)
              && (m.Built? <==> sel != "" && sel in catalog)
              && (m.Built? ==> sel in catalog && m.eos == EOS(sel, catalog[sel].0, catalog[sel].1, catalog[sel].2))
    ensures MaterialType(form, i) == "custom" ==>
              var f := ReadCustomFields(form, p, i);
              && (m == Invalid(CustomInvalid(i)) <==> f.rho0.None? || f.C0.None? || f.S.None?)
              && (f.rho0.Some? && f.C0.Some? && f.S.Some? ==>
                    && (m.Built? <==> f.rho0.value > 0.0 && f.C0.value > 0.0)
                    && (m.Built? ==> m.eos == EOS(CustomName(form, i), f.rho0.value, f.C0.value, f.S.value))
                    && (m.Invalid? ==> m.error == CustomNonPositive(i)))
    ensures MaterialType(form, i) != "premade" && MaterialType(form, i) != "custom" ==>
              m == Invalid(if MaterialType(form, i) == "" then TypeMissing(i) else UnknownType(i))
  {
    var t := MaterialType(form, i);
    if t == "premade" then
      var sel := Selection(form, i);
      if sel == "" then Invalid(PremadeNotSelected(i))
      else if sel !in catalog then Invalid(PremadeNotFound(i))
      else Built(EOS(sel, catalog[sel].0, catalog[sel].1, catalog[sel].2))
    else if t == "custom" then
      var name := CustomName(form, i);
      var f := ReadCustomFields(form, p, i);
      var rho0 := f.rho0;
      var c0 := f.C0;
      var s := f.S;
      if rho0.None? || c0.None? || s.None? then Invalid(CustomInvalid(i))
      else if rho0.value <= 0.0 || c0.value <= 0.0 then Invalid(CustomNonPositive(i))
      else Built(EOS(name, rho0.value, c0.value, s.value))
    else if t != "" then Invalid(UnknownType(i))
    else Invalid(TypeMissing(i))
  }

  /** What one pass of the loop does with material i. */
  datatype Step = Abort(error: FormError) | Skip | Add(eos: EOS, vfrac: real)

  /** Lines 326-374 for one index: a bad fraction aborts; a material that
      cannot be built aborts only when its fraction is positive and is
      skipped otherwise; a built material is added with its fraction. */
  function StepAt(form: Form, catalog: Catalog, p: Parsers, i: nat): (s: Step)
    ensures s.Abort? ==> SectionError(s.error) && s.error.i == i
    ensures s.Abort? && ReadFraction(form, p, i).Ok? ==> ReadFraction(form, p, i).value > 0.0
    ensures s.Skip? ==> ReadFraction(form, p, i) == Ok(0.0) && ResolveMaterial(form, catalog, p, i).Invalid?
    ensures s.Add? ==> ReadFraction(form, p, i) == Ok(s.vfrac) && ResolveMaterial(form, catalog, p, i) == Built(s.eos)
    ensures ReadFraction(form, p, i).Err? ==> s == Abort(ReadFraction(form, p, i).error)
    ensures ReadFraction(form, p, i).Ok? && ResolveMaterial(form, catalog, p, i).Built? ==>
              s == Add(ResolveMaterial(form, catalog, p, i).eos, ReadFraction(form, p, i).value)
    ensures ReadFraction(form, p, i).Ok? && ResolveMaterial(form, catalog, p, i).Invalid? ==>
              && (s.Abort? <==> ReadFraction(form, p, i).value > 0.0)
              && (s.Abort? ==> s.error == ResolveMaterial(form, catalog, p, i).error)
  {
    match ReadFraction(form, p, i)
    case Err(e) => Abort(e)
    case Ok(v) =>
      match ResolveMaterial(form, catalog, p, i)
      case Invalid(e) => if v > 0.0 then Abort(e) else Skip
      case Built(eos) => Add(eos, v)
  }

  /** The lists the loop accumulates: the calculation list, the plotting
      list, and `total_vfrac`. */
  datatype Assembly = Assembly(active: seq<Component>, plotted: seq<Component>, total: real)

  /** Lines 370-374: a built material joins the plotting list; it joins
      the calculation list and the total only when its fraction is positive. */
  function Advance(a: Assembly, s: Step): (r: Result<Assembly, FormError>)
    ensures r.Err? <==> s.Abort?
    ensures s.Abort? ==> r == Err(s.error)
    ensures s.Skip? ==> r == Ok(a)
    ensures s.Add? ==> r.Ok? && r.value.plotted == a.plotted + [Component(s.eos, s.vfrac)]
    ensures s.Add? && s.vfrac > 0.0 ==>
              r.Ok? && r.value.active == a.active + [Component(s.eos, s.vfrac)] && r.value.total == a.total + s.vfrac
    ensures s.Add? && s.vfrac <= 0.0 ==> r.Ok? && r.value.active == a.active && r.value.total == a.total
  {
    match s
    case Abort(e) => Err(e)
    case Skip => Ok(a)
    case Add(eos, v) =>
      var c := Component(eos, v);
      if v > 0.0 then Ok(Assembly(a.active + [c], a.plotted + [c], a.total + v))
      else Ok(Assembly(a.active, a.plotted + [c], a.total))
  }

  /** Lines 321-374: the loop over indices 1..n, stopping at the first abort. */
  function AssembleUpTo(form: Form, catalog: Catalog, p: Parsers, n: nat): (r: Result<Assembly, FormError>)
    ensures r.Err? ==> SectionError(r.error) && 1 <= r.error.i <= n
  {
    if n == 0 then Ok(Assembly([], [], 0.0))
    else match AssembleUpTo(form, catalog, p, n - 1)
      case Err(e) => Err(e)
      case Ok(a) => Advance(a, StepAt(form, catalog, p, n))
  }

  /** The plotted materials whose fraction is positive, in order. */
  function Positive(cs: seq<Component>): (r: seq<Component>)
    ensures |r| <= |cs|
    ensures forall c :: c in r ==> c in cs && c.vfrac > 0.0
  {
    if cs == [] then []
    else if cs[|cs| - 1].vfrac > 0.0 then Positive(cs[..|cs| - 1]) + [cs[|cs| - 1]]
    else Positive(cs[..|cs| - 1])
  }

  /** What the loop keeps: `total_vfrac` is the sum of the active fractions,
      every active fraction lies in (0, 1], and the calculation list is the
      plotting list without its zero-fraction entries. */
  predicate WellFormed(a: Assembly)
  {
    && a.total == Sum(Fractions(a.active))
    && (forall c :: c in a.active ==> 0.0 < c.vfrac <= 1.0)
    && a.active == Positive(a.plotted)
  }

  /** One step of the loop keeps the assembly well formed, given a fraction in [0, 1]. */
  lemma AdvanceKeepsWellFormed(a: Assembly, s: Step)
    requires WellFormed(a)
    requires s.Add? ==> 0.0 <= s.vfrac <= 1.0
    requires Advance(a, s).Ok?
    ensures WellFormed(Advance(a, s).value)
    ensures |Advance(a, s).value.plotted| <= |a.plotted| + 1
  {
    if s.Add? {
      var c := Component(s.eos, s.vfrac);
      assert (a.plotted + [c])[..|a.plotted|] == a.plotted;
      if s.vfrac > 0.0 {
        ListAppend(a.active, c, [], [], Library(x => x, (xs, ys) => None));
        SumAppend(Fractions(a.active), s.vfrac);
      }
    }
  }

  /** The sections among 1..n whose step adds a material, in increasing order. */
  function AddedSections(form: Form, catalog: Catalog, p: Parsers, n: nat): (idx: seq<nat>)
    ensures |idx| <= n
    ensures forall k :: 0 <= k < |idx| ==> 1 <= idx[k] <= n && StepAt(form, catalog, p, idx[k]).Add?
    ensures forall j, k :: 0 <= j < k < |idx| ==> idx[j] < idx[k]
  {
    if n == 0 then []
    else AddedSections(form, catalog, p, n - 1) + (if StepAt(form, catalog, p, n).Add? then [n] else [])
  }

  /** The component that section i contributes to the plotting list. */
  function AddedComponent(form: Form, catalog: Catalog, p: Parsers, i: nat): Component
    requires StepAt(form, catalog, p, i).Add?
  {
    var s := StepAt(form, catalog, p, i);
    Component(s.eos, s.vfrac)
  }

  /** The walk over indices 1..n yields a well-formed assembly whose
      plotting list holds, in order, one material for each section that
      adds one, and nothing else. */
  lemma {:induction false} AssemblyInvariant(form: Form, catalog: Catalog, p: Parsers, n: nat)
    requires AssembleUpTo(form, catalog, p, n).Ok?
    ensures WellFormed(AssembleUpTo(form, catalog, p, n).value)
    ensures |AssembleUpTo(form, catalog, p, n).value.plotted| <= n
    ensures var plotted := AssembleUpTo(form, catalog, p, n).value.plotted;
            var idx := AddedSections(form, catalog, p, n);
            && |plotted| == |idx|
            && forall k :: 0 <= k < |idx| ==> plotted[k] == AddedComponent(form, catalog, p, idx[k])
  {
    if n > 0 {
      AssemblyInvariant(form, catalog, p, n - 1);
      var a := AssembleUpTo(form, catalog, p, n - 1).value;
      var s := StepAt(form, catalog, p, n);
      AdvanceKeepsWellFormed(a, s);
      var plotted := AssembleUpTo(form, catalog, p, n).value.plotted;
      var before := AddedSections(form, catalog, p, n - 1);
      var idx := AddedSections(form, catalog, p, n);
      if s.Add? {
        assert idx == before + [n];
        assert plotted == a.plotted + [AddedComponent(form, catalog, p, n)];
      } else {
        assert idx == before;
        assert plotted == a.plotted;
      }
    }
  }

  /** Once the loop aborts at some index, the result stays that error. */
  lemma {:induction false} AbortPersists(form: Form, catalog: Catalog, p: Parsers, i: nat, n: nat)
    requires i <= n && AssembleUpTo(form, catalog, p, i).Err?
    ensures AssembleUpTo(form, catalog, p, n) == AssembleUpTo(form, catalog, p, i)
    decreases n
  {
    if i < n {
      AbortPersists(form, catalog, p, i, n - 1);
    }
  }

  /** The first index whose step aborts decides the error, however many
      sections follow. */
  lemma {:induction false} FirstAbortWins(form: Form, catalog: Catalog, p: Parsers, i: nat, n: nat)
    requires 1 <= i <= n
    requires StepAt(form, catalog, p, i).Abort?
    requires forall j :: 1 <= j < i ==> !StepAt(form, catalog, p, j).Abort?
    ensures AssembleUpTo(form, catalog, p, n) == Err(StepAt(form, catalog, p, i).error)
  {
    NoAbortBefore(form, catalog, p, i - 1);
    AbortPersists(form, catalog, p, i, n);
  }

  /** Without an aborting step among 1..n the loop completes. */
  lemma {:induction false} NoAbortBefore(form: Form, catalog: Catalog, p: Parsers, n: nat)
    requires forall j :: 1 <= j <= n ==> !StepAt(form, catalog, p, j).Abort?
    ensures AssembleUpTo(form, catalog, p, n).Ok?
  {
    if n > 0 {
      NoAbortBefore(form, catalog, p, n - 1);
    }
  }

  /** A validated request: the mixture name, the calculation list (each
      material with its fraction), the plotting list, and the reference
      particle velocities `linspace(upmin_fit, upmax_fit, num_points_fit)`. */
  datatype Request = Request(name: string, materials: seq<Component>, plotted: seq<Component>, up: seq<real>)

  /** `upmin_fit`, `upmax_fit` and `num_points_fit`, each parsed from its
      field or its default. */
  datatype FitFields = FitFields(lo: Option<real>, hi: Option<real>, num: Option<int>)

  function ReadFitFields(form: Form, p: Parsers): FitFields
  {
    FitFields(p.toFloat(Get(form, "upmin_fit", "0.0")),
              p.toFloat(Get(form, "upmax_fit", "6.0")),
              p.toInt(Get(form, "num_points_fit", "100")))
  }

  /** Lines 382-395: the fit parameters: invalid exactly when one does not
      parse; otherwise an empty range or fewer than 10 points is rejected,
      in that order, and anything else is accepted as parsed. */
  function ReadFitRange(form: Form, p: Parsers): (r: Result<(real, real, int), FormError>)
    ensures r.Ok? ==> r.value.0 < r.value.1 && r.value.2 >= 10
    ensures var f := ReadFitFields(form, p);
            r == Err(FitParamsInvalid) <==> f.lo.None? || f.hi.None? || f.num.None?
    ensures var f := ReadFitFields(form, p);
            f.lo.Some? && f.hi.Some? && f.num.Some? ==>
              && (r == Err(FitRangeEmpty) <==> f.lo.value >= f.hi.value)
              && (r == Err(TooFewPoints) <==> f.lo.value < f.hi.value && f.num.value < 10)
              && (r.Ok? <==> f.lo.value < f.hi.value && f.num.value >= 10)
              && (r.Ok? ==> r.value == (f.lo.value, f.hi.value, f.num.value))
  {
    var f := ReadFitFields(form, p);
    var lo := f.lo;
    var hi := f.hi;
    var num := f.num;
    if lo.None? || hi.None? || num.None? then Err(FitParamsInvalid)
    else if lo.value >= hi.value then Err(FitRangeEmpty)
    else if num.value < 10 then Err(TooFewPoints)
    else Ok((lo.value, hi.value, num.value))
  }

  /** Lines 376-397: the checks after the loop, on its lists and total. */
  function CheckAssembly(form: Form, p: Parsers, a: Assembly): (r: Result<Request, FormError>)
    ensures r.Err? ==> r.error in {NoActiveMaterials, FractionsNotOne, FitParamsInvalid, FitRangeEmpty, TooFewPoints}
    ensures r.Err? ==> (a.active == [] <==> r.error == NoActiveMaterials)
    ensures r.Ok? ==> && r.value.materials == a.active != [] && r.value.plotted == a.plotted
                      && IsClose(a.total, 1.0) && |r.value.up| >= 10
    ensures r == Err(FractionsNotOne) <==> a.active != [] && !IsClose(a.total, 1.0)
    ensures a.active != [] && IsClose(a.total, 1.0) ==> (r.Ok? <==> ReadFitRange(form, p).Ok?)
    ensures a.active != [] && IsClose(a.total, 1.0) && ReadFitRange(form, p).Err? ==>
              r == Err(ReadFitRange(form, p).error)
    ensures r.Ok? ==>
              && ReadFitRange(form, p).Ok?
              && var (lo, hi, num) := ReadFitRange(form, p).value;
                 && r.value.up == Linspace(lo, hi, num)
                 && r.value.name == Get(form, "mixture_name", "MyMixture")
  {
    if a.active == [] then Err(NoActiveMaterials)
    else if !IsClose(a.total, 1.0) then Err(FractionsNotOne)
    else match ReadFitRange(form, p)
      case Err(e) => Err(e)
      case Ok(fit) =>
        Ok(Request(Get(form, "mixture_name", "MyMixture"), a.active, a.plotted, Linspace(fit.0, fit.1, fit.2)))
  }

  /** Everything `post_calculate` decides before it calls the engine, for
      material count n. */
  function RequestSpec(form: Form, catalog: Catalog, p: Parsers, n: int): (r: Result<Request, FormError>)
    requires n >= 0
    ensures r.Err? ==> r.error != CallFailed && !r.error.CalculationFailed?
    ensures r == Err(NoMaterialSections) <==> n == 0
    ensures n > 0 && AssembleUpTo(form, catalog, p, n).Err? ==> r == Err(AssembleUpTo(form, catalog, p, n).error)
    ensures r.Ok? ==> r.value.materials != [] && IsClose(Sum(Fractions(r.value.materials)), 1.0)
    ensures r.Ok? ==> |r.value.up| >= 10
    ensures r.Ok? ==>
              && n > 0 && AssembleUpTo(form, catalog, p, n).Ok?
              && r.value.materials == AssembleUpTo(form, catalog, p, n).value.active
              && r.value.plotted == AssembleUpTo(form, catalog, p, n).value.plotted
              && ReadFitRange(form, p).Ok?
              && var (lo, hi, num) := ReadFitRange(form, p).value;
                 && r.value.up == Linspace(lo, hi, num)
                 && r.value.name == Get(form, "mixture_name", "MyMixture")
  {
    if n == 0 then Err(NoMaterialSections)
    else match AssembleUpTo(form, catalog, p, n)
      case Err(e) => Err(e)
      case Ok(a) =>
        AssemblyInvariant(form, catalog, p, n);
        CheckAssembly(form, p, a)
  }

  /** Lines 370-374: a built material joins the plotting list, and the
      calculation list and the total when its fraction is positive. */
  method AppendBuilt(active: seq<Component>, plotted: seq<Component>, total: real, eos: EOS, v: real)
    returns (active': seq<Component>, plotted': seq<Component>, total': real)
    ensures Advance(Assembly(active, plotted, total), Add(eos, v)) == Ok(Assembly(active', plotted', total'))
  {
    var c := Component(eos, v);
    plotted' := plotted + [c];
    active', total' := active, total;
    if v > 0.0 {
      active' := active + [c];
      total' := total + v;
    }
  }

  /** Lines 325-374: one pass of the loop, for section i, given the lists
      built from the sections before it. */
  method AssembleSection(form: Form, catalog: Catalog, p: Parsers, i: nat,
                         active: seq<Component>, plotted: seq<Component>, total: real)
    returns (r: Result<Assembly, FormError>)
    requires 1 <= i && AssembleUpTo(form, catalog, p, i - 1) == Ok(Assembly(active, plotted, total))
    ensures r == AssembleUpTo(form, catalog, p, i)
  {
    var step := StepAt(form, catalog, p, i);
    match step {
      case Abort(e) =>
        r := Err(e);
      case Skip =>
        r := Ok(Assembly(active, plotted, total));
      case Add(eos, v) =>
        var active', plotted', total' := AppendBuilt(active, plotted, total, eos, v);
        r := Ok(Assembly(active', plotted', total'));
    }
  }

  /** Lines 321-374: walk indices 1..n, appending each built material to
      the plotting list and, when its fraction is positive, to the
      calculation list and the total; the first abort ends the walk. */
  method AssembleMaterials(form: Form, catalog: Catalog, p: Parsers, n: nat) returns (r: Result<Assembly, FormError>)
    ensures r == AssembleUpTo(form, catalog, p, n)
  {
    var active: seq<Component> := [];
    var plotted: seq<Component> := [];
    var total := 0.0;
    var i := 1;
    while i <= n
      invariant 1 <= i <= n + 1
      invariant AssembleUpTo(form, catalog, p, i - 1) == Ok(Assembly(active, plotted, total))
    {
      var next := AssembleSection(form, catalog, p, i, active, plotted, total);
      if next.Err? {
        AbortPersists(form, catalog, p, i, n);
        return next;
      }
      active, plotted, total := next.value.active, next.value.plotted, next.value.total;
      i := i + 1;
    }
    r := Ok(Assembly(active, plotted, total));
  }

  /** Lines 308-397: count the sections, assemble the lists, then check
      the totals and the fit parameters. */
  method ValidateRequest(form: Form, catalog: Catalog, p: Parsers) returns (r: Result<Request, FormError>)
    ensures forall n :: IsMaterialCount(form.Keys, p, n) ==> r == RequestSpec(form, catalog, p, n)
  {
    var n := CountMaterials(form, p);
    forall m | IsMaterialCount(form.Keys, p, m)
      ensures m == n
    {
      MaterialCountUnique(form.Keys, p, m, n);
    }
    if n == 0 {
      return Err(NoMaterialSections);
    }
    var assembled := AssembleMaterials(form, catalog, p, n);
    if assembled.Err? {
      return Err(assembled.error);
    }
    var a := assembled.value;
    assert RequestSpec(form, catalog, p, n) == CheckAssembly(form, p, a);
    if a.active == [] {
      return Err(NoActiveMaterials);
    }
    if !IsClose(a.total, 1.0) {
      return Err(FractionsNotOne);
    }
    var fit := ReadFitRange(form, p);
    if fit.Err? {
      return Err(fit.error);
    }
    var (lo, hi, num) := fit.value;
    r := Ok(Request(Get(form, "mixture_name", "MyMixture"), a.active, a.plotted, Linspace(lo, hi, num)));
  }

  /** The parameters of `generate_mixed_hugoniot_many` (src/components.py:77-81). */
  const EngineParameters: seq<string> := ["name", "material_list", "Up"]

  /** The keywords line 400 passes. */
  const CallKeywords: seq<string> := ["name", "material_data_list", "Up_ref"]

  /** A keyword call binds when every keyword names a parameter; otherwise
      Python raises TypeError before the body runs. */
  predicate Binds(params: seq<string>, keywords: seq<string>)
  {
    forall k :: k in keywords ==> k in params
  }

  /** The call at line 400 does not bind: `material_data_list` is no
      parameter of the engine. */
  lemma CallDoesNotBind()
    ensures !Binds(EngineParameters, CallKeywords)
    ensures Binds(EngineParameters, EngineParameters)
  {
    assert CallKeywords[1] == "material_data_list";
    assert "material_data_list" !in EngineParameters;
  }

  /** The engine's fault as the handler reports it. */
  function Lift(r: Result<MixedEOS, Fault>): (q: Result<MixedEOS, FormError>)
    ensures q.Ok? <==> r.Ok?
    ensures r.Ok? ==> q.value == r.value
    ensures r.Err? ==> q == Err(CalculationFailed(r.error))
  {
    match r
    case Ok(m) => Ok(m)
    case Err(f) => Err(CalculationFailed(f))
  }

  /** Lines 307-406 as written: a validated request is handed to the
      engine with the keywords of line 400. */
  function PostCalculateAsWritten(form: Form, catalog: Catalog, p: Parsers, lib: Library, n: nat): (r: Result<MixedEOS, FormError>)
    ensures RequestSpec(form, catalog, p, n).Err? ==> r == Err(RequestSpec(form, catalog, p, n).error)
    ensures r.Ok? ==> RequestSpec(form, catalog, p, n).Ok?
  {
    match RequestSpec(form, catalog, p, n)
    case Err(e) => Err(e)
    case Ok(req) =>
      if !Binds(EngineParameters, CallKeywords) then Err(CallFailed)
      else Lift(MixManyAsWritten(req.name, req.materials, req.up, lib))
  }

  /** The handler as intended: the engine's own parameter names, and the
      engine with its guard the right way round. */
  function PostCalculateIntended(form: Form, catalog: Catalog, p: Parsers, lib: Library, n: nat): (r: Result<MixedEOS, FormError>)
    ensures RequestSpec(form, catalog, p, n).Err? ==> r == Err(RequestSpec(form, catalog, p, n).error)
    ensures RequestSpec(form, catalog, p, n).Ok? ==>
              var req := RequestSpec(form, catalog, p, n).value;
              r == Lift(MixManyIntended(req.name, req.materials, req.up, lib))
  {
    match RequestSpec(form, catalog, p, n)
    case Err(e) => Err(e)
    case Ok(req) =>
      if !Binds(EngineParameters, EngineParameters) then Err(CallFailed)
      else Lift(MixManyIntended(req.name, req.materials, req.up, lib))
  }

  /** As written, no form ever yields a mixture: the validation errors come
      first, and a request that passes them fails at the call. */
  lemma AsWrittenNeverComputes(form: Form, catalog: Catalog, p: Parsers, lib: Library, n: nat)
    ensures var r := PostCalculateAsWritten(form, catalog, p, lib, n);
            && r.Err?
            && (RequestSpec(form, catalog, p, n).Ok? <==> r == Err(CallFailed))
  {
    CallDoesNotBind();
  }

  /** Even with the keywords repaired, the engine's inverted guard rejects
      every request the handler validated, because the handler lets through
      only totals close to 1. */
  lemma RepairedCallStillRejected(form: Form, catalog: Catalog, p: Parsers, lib: Library, n: nat)
    requires RequestSpec(form, catalog, p, n).Ok?
    ensures var req := RequestSpec(form, catalog, p, n).value;
            MixManyAsWritten(req.name, req.materials, req.up, lib) == Err(FractionsSumToOne)
  {
  }

  /** As intended, a validated request never trips the engine's own
      fraction or empty-list checks, and a computed mixture lists the
      active materials in index order with their fractions. */
  lemma IntendedComputesActiveList(form: Form, catalog: Catalog, p: Parsers, lib: Library, n: nat)
    requires RequestSpec(form, catalog, p, n).Ok?
    ensures var r := PostCalculateIntended(form, catalog, p, lib, n);
            && r != Err(CalculationFailed(FractionsDoNotSumToOne))
            && r != Err(CalculationFailed(EmptyMaterialList))
            && r != Err(CallFailed)
    ensures var r := PostCalculateIntended(form, catalog, p, lib, n);
            var req := RequestSpec(form, catalog, p, n).value;
            r.Ok? ==> r.value.components == Names(req.materials) && r.value.vfracs == Fractions(req.materials)
  {
    var req := RequestSpec(form, catalog, p, n).value;
    var e := MixManyIntended(req.name, req.materials, req.up, lib);
    assert req.materials != [];
    if e.Ok? {
      IntendedBookkeeping(req.name, req.materials, req.up, lib);
    }
  }
}
