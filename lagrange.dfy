/** The Lagrange engine (script.js:45-80): one basis term in product form,
    yⱼ·Π_{m≠j}(x − xₘ)/(xⱼ − xₘ), and the polynomial as the sum of the
    terms. A term whose denominator is zero is not finite in JavaScript
    (Infinity or NaN); here it is None. */
module Lagrange {
  import opened Wrappers
  import opened Transform
  import opened Text

  /** What lagrangeBasisTerm returns: the value and the parallel symbolic
      factor lists. */
  datatype BasisTerm = BasisTerm(value: Option<real>, numeratorSyms: seq<string>,
                                 denomSyms: seq<string>, yj: real)

  // ---------------------------------------------------------------------
  // Specification

  /** The indices m < k other than j, in increasing order: the iterations
      of the factor loop that do not `continue`. */
  function Others(j: nat, k: nat): (ms: seq<nat>)
    ensures forall i :: 0 <= i < |ms| ==> ms[i] < k && ms[i] != j
  {
    if k == 0 then [] else if k - 1 == j then Others(j, k - 1) else Others(j, k - 1) + [k - 1]
  }

  /** The i-th index other than j. */
  function Skip(j: nat, i: nat): nat { if i < j then i else i + 1 }

  /** One step of a running product. Kept as a function so that the running
      products are compared by their factors rather than as polynomials. */
  function Mul(acc: real, factor: real): real { acc * factor }

  /** Π_{m<k, m≠j} (x − xₘ): numeratorVal after k iterations. */
  function NumProd(pts: seq<Point>, j: nat, x: real, k: nat): real
    requires k <= |pts|
  {
    if k == 0 then 1.0
    else if k - 1 == j then NumProd(pts, j, x, k - 1)
    else Mul(NumProd(pts, j, x, k - 1), x - pts[k - 1].x)
  }

  /** Π_{m<k, m≠j} (xⱼ − xₘ): denomVal after k iterations. */
  function DenProd(pts: seq<Point>, j: nat, k: nat): real
    requires j < |pts| && k <= |pts|
  {
    if k == 0 then 1.0
    else if k - 1 == j then DenProd(pts, j, k - 1)
    else Mul(DenProd(pts, j, k - 1), pts[j].x - pts[k - 1].x)
  }

  /** The symbolic numerator factor for point m. */
  function NumSym(m: nat): string { "(x - x_{" + NatStr(m + 1) + "})" }

  /** The symbolic denominator factor for point m inside term j. */
  function DenSym(j: nat, m: nat): string { "(x_{" + NatStr(j + 1) + "} - x_{" + NatStr(m + 1) + "})" }

  function NumSyms(j: nat, k: nat): seq<string>
  {
    var ms := Others(j, k);
    seq(|ms|, i requires 0 <= i < |ms| => NumSym(ms[i]))
  }

  function DenSyms(j: nat, k: nat): seq<string>
  {
    var ms := Others(j, k);
    seq(|ms|, i requires 0 <= i < |ms| => DenSym(j, ms[i]))
  }

  /** yⱼ·(num/den), which JavaScript makes non-finite when den is zero. */
  function ScaledQuotient(yj: real, num: real, den: real): Option<real>
  {
    if den == 0.0 then None else Some(yj * (num / den))
  }

  /** The value of basis term j at x; None when the denominator is zero. */
  function BasisValue(pts: seq<Point>, j: nat, x: real): Option<real>
    requires j < |pts|
  {
    ScaledQuotient(pts[j].y, NumProd(pts, j, x, |pts|), DenProd(pts, j, |pts|))
  }

  /** JavaScript addition where a non-finite operand makes the sum non-finite. */
  function AddOpt(a: Option<real>, b: Option<real>): Option<real>
  {
    if a.Some? && b.Some? then Some(a.value + b.value) else None
  }

  /** The sum of the first k basis terms at x. */
  function PolySum(pts: seq<Point>, x: real, k: nat): Option<real>
    requires k <= |pts|
  {
    if k == 0 then Some(0.0) else AddOpt(PolySum(pts, x, k - 1), BasisValue(pts, k - 1, x))
  }

  /** The interpolating polynomial at x: the sum of all basis terms. */
  function Polynomial(pts: seq<Point>, x: real): Option<real>
  {
    PolySum(pts, x, |pts|)
  }

  /** Pairwise-distinct abscissas. */
  predicate Distinct(pts: seq<Point>)
  {
    forall a, b :: 0 <= a < |pts| && 0 <= b < |pts| && a != b ==> pts[a].x != pts[b].x
  }

  /** Some other point shares the abscissa of point j. */
  predicate RepeatsX(pts: seq<Point>, j: nat)
    requires j < |pts|
  {
    exists m :: 0 <= m < |pts| && m != j && pts[m].x == pts[j].x
  }

  // ---------------------------------------------------------------------
  // The engine as the source computes it

  /** lagrangeBasisTerm: the factor loop with its two accumulators and two
      symbol lists. */
  method LagrangeBasisTerm(allPoints: seq<Point>, j: nat, xVal: real) returns (r: BasisTerm)
    requires j < |allPoints|
    ensures r.value == BasisValue(allPoints, j, xVal)
    ensures r.numeratorSyms == NumSyms(j, |allPoints|)
    ensures r.denomSyms == DenSyms(j, |allPoints|)
    ensures r.yj == allPoints[j].y
  {
    var n := |allPoints|;
    var numeratorVal := 1.0;
    var denomVal := 1.0;
    var numeratorSyms: seq<string> := [];
    var denomSyms: seq<string> := [];
    for m := 0 to n
      invariant numeratorVal == NumProd(allPoints, j, xVal, m)
      invariant denomVal == DenProd(allPoints, j, m)
      invariant numeratorSyms == NumSyms(j, m)
      invariant denomSyms == DenSyms(j, m)
    {
      SymsStep(j, m);
      ProdStep(allPoints, j, xVal, m);
      if m == j {
        continue;
      }
      var xm := allPoints[m].x;
      var xj := allPoints[j].x;
      numeratorVal := Mul(numeratorVal, xVal - xm);
      denomVal := Mul(denomVal, xj - xm);
      numeratorSyms := numeratorSyms + [NumSym(m)];
      denomSyms := denomSyms + [DenSym(j, m)];
    }
    var yj := allPoints[j].y;
    var value := ScaledQuotient(yj, numeratorVal, denomVal);
    r := BasisTerm(value, numeratorSyms, denomSyms, yj);
  }

  /** The products take one factor in each iteration but j's. */
  lemma ProdStep(pts: seq<Point>, j: nat, x: real, m: nat)
    requires j < |pts| && m < |pts|
    ensures m == j ==> NumProd(pts, j, x, m + 1) == NumProd(pts, j, x, m) && DenProd(pts, j, m + 1) == DenProd(pts, j, m)
    ensures m != j ==> NumProd(pts, j, x, m + 1) == Mul(NumProd(pts, j, x, m), x - pts[m].x)
    ensures m != j ==> DenProd(pts, j, m + 1) == Mul(DenProd(pts, j, m), pts[j].x - pts[m].x)
  {
  }

  /** The symbol lists grow by one factor in each iteration but j's. */
  lemma SymsStep(j: nat, m: nat)
    ensures m == j ==> NumSyms(j, m + 1) == NumSyms(j, m) && DenSyms(j, m + 1) == DenSyms(j, m)
    ensures m != j ==> NumSyms(j, m + 1) == NumSyms(j, m) + [NumSym(m)]
    ensures m != j ==> DenSyms(j, m + 1) == DenSyms(j, m) + [DenSym(j, m)]
  {
  }

  /** evaluatePolynomial: the loop sum of the basis values. */
  method EvaluatePolynomial(allPoints: seq<Point>, xVal: real) returns (sum: Option<real>)
    ensures sum == Polynomial(allPoints, xVal)
  {
    sum := Some(0.0);
    for j := 0 to |allPoints|
      invariant sum == PolySum(allPoints, xVal, j)
    {
      var term := LagrangeBasisTerm(allPoints, j, xVal);
      sum := AddOpt(sum, term.value);
    }
  }

  // ---------------------------------------------------------------------
  // Properties

  /** The factor lists have one entry per m ≠ j, in increasing m. */
  lemma {:induction false} OthersShape(j: nat, k: nat)
    ensures |Others(j, k)| == if j < k then k - 1 else k
    ensures forall i :: 0 <= i < |Others(j, k)| ==> Others(j, k)[i] == Skip(j, i)
  {
    if k > 0 {
      OthersShape(j, k - 1);
    }
  }

  /** lagrangeBasisTerm's symbol lists: n − 1 entries each, labelled by the
      i-th index other than j. */
  lemma SymsShape(j: nat, n: nat)
    requires j < n
    ensures |NumSyms(j, n)| == n - 1 && |DenSyms(j, n)| == n - 1
    ensures forall i :: 0 <= i < n - 1 ==> NumSyms(j, n)[i] == NumSym(Skip(j, i))
    ensures forall i :: 0 <= i < n - 1 ==> DenSyms(j, n)[i] == DenSym(j, Skip(j, i))
  {
    OthersShape(j, n);
  }

  /** The denominator is zero exactly when an earlier-visited point repeats xⱼ. */
  lemma {:induction false} DenProdZeroIff(pts: seq<Point>, j: nat, k: nat)
    requires j < |pts| && k <= |pts|
    ensures DenProd(pts, j, k) == 0.0 <==> exists m :: 0 <= m < k && m != j && pts[m].x == pts[j].x
  {
    if k > 0 {
      DenProdZeroIff(pts, j, k - 1);
      if k - 1 != j {
        var a := DenProd(pts, j, k - 1);
        var b := pts[j].x - pts[k - 1].x;
        assert a * b == 0.0 <==> a == 0.0 || b == 0.0;
      }
    }
  }

  /** A basis term is non-finite exactly when another point repeats xⱼ. */
  lemma BasisNonFiniteIff(pts: seq<Point>, j: nat, x: real)
    requires j < |pts|
    ensures BasisValue(pts, j, x).None? <==> RepeatsX(pts, j)
  {
    DenProdZeroIff(pts, j, |pts|);
  }

  /** At xⱼ the numerator reproduces the denominator. */
  lemma {:induction false} NumProdAtOwnNode(pts: seq<Point>, j: nat, k: nat)
    requires j < |pts| && k <= |pts|
    ensures NumProd(pts, j, pts[j].x, k) == DenProd(pts, j, k)
  {
    if k > 0 {
      NumProdAtOwnNode(pts, j, k - 1);
    }
  }

  /** At another visited node the numerator vanishes. */
  lemma {:induction false} NumProdAtOtherNode(pts: seq<Point>, j: nat, i: nat, k: nat)
    requires i < k <= |pts| && i != j
    ensures NumProd(pts, j, pts[i].x, k) == 0.0
  {
    if i < k - 1 {
      NumProdAtOtherNode(pts, j, i, k - 1);
    }
  }

  /** Kronecker delta: with distinct abscissas, basis term j is yⱼ at xⱼ and
      0 at every other node. */
  lemma BasisKronecker(pts: seq<Point>, j: nat, k: nat)
    requires Distinct(pts) && j < |pts| && k < |pts|
    ensures BasisValue(pts, j, pts[k].x) == Some(if k == j then pts[j].y else 0.0)
  {
    BasisNonFiniteIff(pts, j, pts[k].x);
    var d := DenProd(pts, j, |pts|);
    assert d != 0.0;
    if k == j {
      NumProdAtOwnNode(pts, j, |pts|);
      assert d / d == 1.0;
      assert BasisValue(pts, j, pts[k].x) == ScaledQuotient(pts[j].y, d, d);
    } else {
      NumProdAtOtherNode(pts, j, k, |pts|);
      assert 0.0 / d == 0.0;
      assert BasisValue(pts, j, pts[k].x) == ScaledQuotient(pts[j].y, 0.0, d);
    }
  }

  /** The prefix sum at node i is yᵢ once term i is included, 0 before. */
  lemma {:induction false} PolySumAtNode(pts: seq<Point>, i: nat, k: nat)
    requires Distinct(pts) && i < |pts| && k <= |pts|
    ensures PolySum(pts, pts[i].x, k) == Some(if i < k then pts[i].y else 0.0)
  {
    if k > 0 {
      PolySumAtNode(pts, i, k - 1);
      BasisKronecker(pts, k - 1, i);
    }
  }

  /** The interpolation theorem: with distinct abscissas the polynomial
      passes through every point. */
  lemma Interpolation(pts: seq<Point>, i: nat)
    requires Distinct(pts) && i < |pts|
    ensures Polynomial(pts, pts[i].x) == Some(pts[i].y)
  {
    PolySumAtNode(pts, i, |pts|);
  }

  /** The empty point list evaluates to 0 everywhere. */
  lemma PolynomialOfNoPoints(x: real)
    ensures Polynomial([], x) == Some(0.0)
  {
  }

  /** A prefix sum is non-finite exactly when one of its terms is. */
  lemma {:induction false} PolySumNoneIff(pts: seq<Point>, x: real, k: nat)
    requires k <= |pts|
    ensures PolySum(pts, x, k).None? <==> exists j :: 0 <= j < k && BasisValue(pts, j, x).None?
  {
    if k > 0 {
      PolySumNoneIff(pts, x, k - 1);
    }
  }

  /** The polynomial is finite at some (equivalently every) x exactly when
      the abscissas are pairwise distinct. */
  lemma PolynomialFiniteIffDistinct(pts: seq<Point>, x: real)
    ensures Polynomial(pts, x).Some? <==> Distinct(pts)
  {
    PolySumNoneIff(pts, x, |pts|);
    if Distinct(pts) {
      forall j | 0 <= j < |pts| ensures BasisValue(pts, j, x).Some? {
        BasisNonFiniteIff(pts, j, x);
      }
    } else {
      var a, b :| 0 <= a < |pts| && 0 <= b < |pts| && a != b && pts[a].x == pts[b].x;
      BasisNonFiniteIff(pts, a, x);
    }
  }

  /** Two points (0,0) and (1,1): the polynomial is the line y = x. */
  lemma LineThroughTwoPoints()
    ensures Polynomial([Point(0.0, 0.0), Point(1.0, 1.0)], 0.5) == Some(0.5)
  {
    var pts := [Point(0.0, 0.0), Point(1.0, 1.0)];
    assert DenProd(pts, 0, 2) == -1.0;
    assert DenProd(pts, 1, 2) == 1.0;
    assert NumProd(pts, 1, 0.5, 2) == 0.5;
    assert BasisValue(pts, 1, 0.5) == Some(0.5);
    assert BasisValue(pts, 0, 0.5) == Some(0.0);
  }

  /** Three points (0,0), (1,1), (2,0): the polynomial passes through each. */
  lemma ParabolaThroughThreePoints()
    ensures Polynomial([Point(0.0, 0.0), Point(1.0, 1.0), Point(2.0, 0.0)], 0.0) == Some(0.0)
    ensures Polynomial([Point(0.0, 0.0), Point(1.0, 1.0), Point(2.0, 0.0)], 1.0) == Some(1.0)
    ensures Polynomial([Point(0.0, 0.0), Point(1.0, 1.0), Point(2.0, 0.0)], 2.0) == Some(0.0)
  {
    var pts := [Point(0.0, 0.0), Point(1.0, 1.0), Point(2.0, 0.0)];
    Interpolation(pts, 0);
    Interpolation(pts, 1);
    Interpolation(pts, 2);
  }
}
