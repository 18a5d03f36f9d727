/** The two computations of `get_main_page` in src/main.py that decide
    what the calculation form starts with: how many material sections it
    shows and the volume fraction each section is pre-filled with. */
module MainPage {
  import opened Wrappers
  import opened Numerics
  import opened Calculate

  /** The number of sections shown when the query does not ask for a
      usable one. */
  const DefaultCount: int := 2

  /** Lines 256-260: the `num_materials` query parameter, defaulting to
      "2"; an integer in [1, 10] is kept, anything else becomes 2. */
  function RequestedMaterialCount(query: map<string, string>, p: Parsers): (n: int)
    ensures 1 <= n <= 10
    ensures var parsed := p.toInt(Get(query, "num_materials", "2"));
            (parsed.Some? && 1 <= parsed.value <= 10) <==> (parsed.Some? && n == parsed.value)
    ensures var parsed := p.toInt(Get(query, "num_materials", "2"));
            !(parsed.Some? && 1 <= parsed.value <= 10) ==> n == DefaultCount
  {
    match p.toInt(Get(query, "num_materials", "2"))
    case None => DefaultCount
    case Some(k) => if !(1 <= k <= 10) then DefaultCount else k
  }

  /** Lines 281-283: n equal shares of 1; when their sum is not close to 1
      the last share is replaced by 1 minus the others. Over the reals the
      equal shares already add up to exactly 1, so every share is 1/n. */
  method DefaultVolumeFractions(n: nat) returns (fracs: seq<real>)
    ensures |fracs| == n
    ensures forall i :: 0 <= i < n ==> fracs[i] == 1.0 / (n as real)
    ensures n > 0 ==> Sum(fracs) == 1.0
  {
    if n == 0 {
      return [];
    }
    var share := 1.0 / (n as real);
    var a := new real[n](_ => share);
    assert a[..] == seq(n, _ => share);
    if !IsClose(Sum(a[..]), 1.0) {
      a[n - 1] := 1.0 - Sum(a[..n - 1]);
    }
    fracs := a[..];
    assert fracs[..n - 1] == seq(n - 1, _ => share);
    CopiesFillUnit(n, share);
    assert Sum(fracs) == Sum(fracs[..n - 1]) + fracs[n - 1];
  }

  /** n − 1 shares of 1/n leave exactly 1/n for the last one. */
  lemma CopiesFillUnit(n: nat, share: real)
    requires n > 0 && share == 1.0 / (n as real)
    ensures Sum(seq(n - 1, _ => share)) + share == 1.0
  {
    SumOfCopies(share, n - 1);
    assert ((n - 1) as real) * share + share == (n as real) * share;
  }
}
