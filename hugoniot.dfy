/** One material's linear Us–Up Hugoniot (`HugoniotEOS` in src/components.py):
    shock velocity, pressure, and the inverse solve of particle velocity
    from pressure, together with their pointwise application to arrays. */
module Hugoniot {
  import opened Numerics

  /** A material: reference density rho0, intercept C0 and slope S of Us = C0 + S·up. */
  datatype EOS = EOS(name: string, rho0: real, C0: real, S: real)

  /** `hugoniot_eos`: the shock velocity at particle velocity up. */
  function ShockVelocity(e: EOS, up: real): (us: real)
    ensures up == 0.0 ==> us == e.C0
  {
    e.C0 + e.S * up
  }

  /** `hugoniot_P`: the pressure rho0·Us·up on the Hugoniot. */
  function Pressure(e: EOS, up: real): (p: real)
    ensures up == 0.0 ==> p == 0.0
  {
    e.rho0 * ShockVelocity(e, up) * up
  }

  /** The discriminant b² − 4ac of S·up² + C0·up − P/rho0 = 0, as `solve_up` forms it. */
  function Discriminant(e: EOS, p: real): real
    requires e.rho0 != 0.0
  {
    e.C0 * e.C0 - 4.0 * e.S * (-p / e.rho0)
  }

  /** `solve_up` yields a real number: no division by zero (rho0 or 2·S)
      and no square root of a negative discriminant. */
  predicate SolveUpDefined(e: EOS, p: real)
  {
    e.rho0 != 0.0 && e.S != 0.0 && Discriminant(e, p) >= 0.0
  }

  /** The larger root r = (−b + s)/(2a) of a·r² + b·r + c = 0, where s² = b² − 4ac. */
  lemma QuadraticRoot(a: real, b: real, c: real, s: real, r: real)
    requires a != 0.0 && r == (-b + s) / (2.0 * a)
    ensures 2.0 * a * r + b == s
    ensures s * s == b * b - 4.0 * a * c ==> a * r * r + b * r + c == 0.0
  {
    var twoA := 2.0 * a;
    assert twoA * r == -b + s;
    if s * s == b * b - 4.0 * a * c {
      var ar := a * r;
      var q := ar * r + b * r + c;
      assert s == 2.0 * ar + b;
      assert s * s == 4.0 * ar * ar + 4.0 * ar * b + b * b;
      assert ar * ar == a * (ar * r);
      assert ar * b == a * (b * r);
      assert 4.0 * a * q == 0.0;
      assert q == (4.0 * a * q) / (4.0 * a);
    }
  }

  /** `solve_up`: the particle velocity at which the Hugoniot reaches pressure p.
      With a sound square root, the result is a root of S·up² + C0·up = p/rho0,
      and it is the root on the `+sqrt` branch. */
  function SolveUp(e: EOS, p: real, lib: Library): (up: real)
    requires SolveUpDefined(e, p)
    ensures SqrtSound(lib) ==> e.S * up * up + e.C0 * up == p / e.rho0
    ensures SqrtSound(lib) ==> 2.0 * e.S * up + e.C0 >= 0.0
  {
    var a := e.S;
    var b := e.C0;
    var c := -p / e.rho0;
    var s := lib.sqrt(b * b - 4.0 * a * c);
    var up := (-b + s) / (2.0 * a);
    QuadraticRoot(a, b, c, s, up);
    up
  }

  /** Round trip: solving at the pressure of up gives up back, whenever the
      slope and density are nonzero and up lies on the `+sqrt` branch
      (C0 + 2·S·up >= 0, which holds for C0 > 0, S > 0, up >= 0). */
  lemma SolveUpInvertsPressure(e: EOS, up: real, lib: Library)
    requires SqrtSound(lib) && e.rho0 != 0.0 && e.S != 0.0
    requires e.C0 + 2.0 * e.S * up >= 0.0
    ensures SolveUpDefined(e, Pressure(e, up))
    ensures SolveUp(e, Pressure(e, up), lib) == up
  {
    var p := Pressure(e, up);
    PressureAlgebra(e.rho0, e.C0, e.S, up, p);
    var r := SolveUp(e, p, lib);
    RootOnBranchUnique(e.S, e.C0, r, up);
  }

  /** For p = rho·(c + s·u)·u: p/rho = s·u² + c·u, and the discriminant
      c² − 4·s·(−p/rho) is the square (c + 2·s·u)², hence nonnegative. */
  lemma PressureAlgebra(rho: real, c: real, s: real, u: real, p: real)
    requires rho != 0.0 && p == rho * (c + s * u) * u
    ensures p / rho == s * u * u + c * u
    ensures c * c - 4.0 * s * (-p / rho) == (c + 2.0 * s * u) * (c + 2.0 * s * u) >= 0.0
  {
    var q := s * u * u + c * u;
    var su := s * u;
    assert (c + su) * u == q;
    assert p == rho * q;
    assert p / rho == q;
    assert -p / rho == -q;
    assert s * q == su * su + c * su;
    var x := c + 2.0 * su;
    assert x * x == c * c + 4.0 * (su * su + c * su);
    if x >= 0.0 {
      ScaleLess(x, 0.0, x);
    } else {
      ScaleLess(-x, 0.0, -x);
      assert (-x) * (-x) == x * x;
    }
  }

  /** a·x² + b·x takes each value at most once on the branch 2·a·x + b >= 0. */
  lemma RootOnBranchUnique(a: real, b: real, r: real, u: real)
    requires a != 0.0 && a * r * r + b * r == a * u * u + b * u
    requires 2.0 * a * r + b >= 0.0 && 2.0 * a * u + b >= 0.0
    ensures r == u
  {
    var m := a * (r + u) + b;
    assert (r - u) * m == (a * r * r + b * r) - (a * u * u + b * u);
    if m == 0.0 {
      var ar := a * r;
      var au := a * u;
      assert m == ar + au + b;
      assert ar == au;
      assert a * (r - u) == 0.0;
      assert r - u == (a * (r - u)) / a;
    } else {
      assert r - u == ((r - u) * m) / m;
    }
  }

  /** The other direction: the pressure at the solved particle velocity is p. */
  lemma PressureInvertsSolveUp(e: EOS, p: real, lib: Library)
    requires SqrtSound(lib) && SolveUpDefined(e, p)
    ensures Pressure(e, SolveUp(e, p, lib)) == p
  {
    var r := SolveUp(e, p, lib);
    var sr := e.S * r;
    assert sr * r + e.C0 * r == p / e.rho0;
    assert (e.C0 + sr) * r == p / e.rho0;
    assert e.rho0 * (p / e.rho0) == p;
  }

  /** At zero pressure the solve returns exactly 0 if and only if C0 >= 0. */
  lemma SolveUpAtZero(e: EOS, lib: Library)
    requires SqrtSound(lib) && e.rho0 != 0.0 && e.S != 0.0
    ensures SolveUpDefined(e, 0.0)
    ensures SolveUp(e, 0.0, lib) == 0.0 <==> e.C0 >= 0.0
  {
    assert Discriminant(e, 0.0) == e.C0 * e.C0;
    var u := SolveUp(e, 0.0, lib);
    var w := e.S * u + e.C0;
    assert 0.0 / e.rho0 == 0.0;
    assert u * w == 0.0;
    assert 2.0 * w - e.C0 >= 0.0;
    if e.C0 >= 0.0 && w == 0.0 {
      assert e.S * u == 0.0;
    }
  }

  /** For positive density and slope, `solve_up` is real exactly for the
      pressures with 4·S·p >= −rho0·C0²; below that numpy returns NaN. */
  lemma SolveUpDomain(e: EOS, p: real)
    requires e.rho0 > 0.0 && e.S > 0.0
    ensures SolveUpDefined(e, p) <==> 4.0 * e.S * p >= -(e.rho0 * e.C0 * e.C0)
  {
    var k := 4.0 * e.S * p;
    assert 4.0 * e.S * (-p / e.rho0) == -(k / e.rho0);
    var c2 := e.C0 * e.C0;
    assert c2 + k / e.rho0 >= 0.0 <==> e.rho0 * (c2 + k / e.rho0) >= 0.0;
    assert e.rho0 * (c2 + k / e.rho0) == e.rho0 * c2 + k;
  }

  /** For a physical material (rho0, C0 > 0, S >= 0) pressure strictly
      increases with particle velocity on up >= 0. */
  lemma PressureIncreasing(e: EOS, u: real, v: real)
    requires e.rho0 > 0.0 && e.C0 > 0.0 && e.S >= 0.0
    requires 0.0 <= u < v
    ensures Pressure(e, u) < Pressure(e, v)
  {
    CubicIncreasing(e.rho0, e.C0, e.S, u, v);
    assert Pressure(e, u) == e.rho0 * (e.C0 + e.S * u) * u;
    assert Pressure(e, v) == e.rho0 * (e.C0 + e.S * v) * v;
  }

  /** rho·(c + s·u)·u is strictly increasing on u >= 0 for rho, c > 0 and s >= 0:
      the difference at v > u is rho·(v − u)·(c + s·(u + v)). */
  lemma CubicIncreasing(rho: real, c: real, s: real, u: real, v: real)
    requires rho > 0.0 && c > 0.0 && s >= 0.0 && 0.0 <= u < v
    ensures rho * (c + s * u) * u < rho * (c + s * v) * v
  {
    var w := c + s * (u + v);
    ScaleLess(s, 0.0, u + v);
    ScaleLess(v - u, 0.0, w);
    ScaleLess(rho, 0.0, (v - u) * w);
    assert rho * (c + s * v) * v - rho * (c + s * u) * u == rho * ((v - u) * w);
  }

  /** `hugoniot_P` applied to a particle-velocity array. */
  function PressureTrace(e: EOS, up: seq<real>): (ps: seq<real>)
    ensures |ps| == |up|
    ensures forall k :: 0 <= k < |up| ==> ps[k] == Pressure(e, up[k])
  {
    seq(|up|, k requires 0 <= k < |up| => Pressure(e, up[k]))
  }

  /** `solve_up` gives a real number at every sample of the pressure array. */
  predicate Solvable(e: EOS, ps: seq<real>)
  {
    forall k :: 0 <= k < |ps| ==> SolveUpDefined(e, ps[k])
  }

  /** `solve_up` gives a real number at every sample of the pressure array
      after the first, the samples whose velocities reach the fit. */
  predicate SolvableAfterFirst(e: EOS, ps: seq<real>)
  {
    forall k :: 1 <= k < |ps| ==> SolveUpDefined(e, ps[k])
  }

  /** `solve_up` applied to a pressure array. Where numpy would produce NaN
      the entry is 0.0, a stand-in: every caller reports `NotFinite`
      whenever the array is not `SolvableAfterFirst`, and the entry at
      sample 0 never reaches the fit, so the stand-in reaches no result. */
  function SolveUpTrace(e: EOS, ps: seq<real>, lib: Library): (ups: seq<real>)
    ensures |ups| == |ps|
    ensures forall k :: 0 <= k < |ps| && SolveUpDefined(e, ps[k]) ==> ups[k] == SolveUp(e, ps[k], lib)
  {
    seq(|ps|, k requires 0 <= k < |ps| => if SolveUpDefined(e, ps[k]) then SolveUp(e, ps[k], lib) else 0.0)
  }
}
