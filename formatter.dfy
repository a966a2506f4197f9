/** The formula text (script.js:240-299): each basis term as a LaTeX
    fraction, symbolic or numeric, whose yⱼ factor carries the identifier
    fx{j+1} that the points table highlights. Number formatting with
    toFixed(3) is foreign to the model and is passed in as `fmt3`. */
module Formatter {
  import opened Transform
  import opened Text
  import opened Lagrange

  /** The identifier of point j in the formula: fx{j+1}. */
  function FxId(j: nat): string { "fx" + NatStr(j + 1) }

  /** MathJax's `\cssId{id}{body}`. */
  function CssId(id: string, body: string): string { "\\cssId{" + id + "}{" + body + "}" }

  /** The separator between the factors of a product. */
  const CDOT: string := "\\cdot "

  /** `\frac{num}{den} \cdot y`, with the factor lists joined by CDOT. */
  function Fraction(num: seq<string>, den: seq<string>, y: string): string
  {
    "\\frac{" + Join(num, CDOT) + "}{" + Join(den, CDOT) + "} \\cdot " + y
  }

  predicate EndsWith(s: string, suffix: string)
  {
    |suffix| <= |s| && s[|s| - |suffix|..] == suffix
  }

  // ---------------------------------------------------------------------
  // Symbolic terms (formatBasisSymbolic)

  /** The body of term j's tagged factor in symbolic form: f(x_{j+1}). */
  function SymbolicY(j: nat): string { "f(x_{" + NatStr(j + 1) + "})" }

  /** Term j of n in symbolic form; it depends only on the indices. */
  function SymbolicTerm(j: nat, n: nat): string
  {
    Fraction(NumSyms(j, n), DenSyms(j, n), CssId(FxId(j), SymbolicY(j)))
  }

  /** The template both formatters fill in is the fraction of the joined
      factor lists times the tagged y factor. */
  lemma FractionText(num: seq<string>, den: seq<string>, y: string)
    ensures "\\frac{" + Join(num, "\\cdot ") + "}{" + Join(den, "\\cdot ") + "} \\cdot " + y
         == Fraction(num, den, y)
  {
  }

  /** The tag template `\cssId{fx<j+1>}{y}` is y tagged with point j's identifier. */
  lemma TagText(j: nat, y: string)
    ensures "\\cssId{fx" + NatStr(j + 1) + "}{" + y + "}" == CssId(FxId(j), y)
  {
    var id := "fx" + NatStr(j + 1);
    assert "\\cssId{fx" + NatStr(j + 1) == "\\cssId{" + id;
  }

  method FormatBasisSymbolic(allPoints: seq<Point>, j: nat) returns (s: string)
    ensures s == SymbolicTerm(j, |allPoints|)
  {
    var n := |allPoints|;
    var numParts: seq<string> := [];
    var denomParts: seq<string> := [];
    for m := 0 to n
      invariant numParts == NumSyms(j, m)
      invariant denomParts == DenSyms(j, m)
    {
      SymsStep(j, m);
      if m == j {
        continue;
      }
      numParts := numParts + ["(x - x_{" + NatStr(m + 1) + "})"];
      denomParts := denomParts + ["(x_{" + NatStr(j + 1) + "} - x_{" + NatStr(m + 1) + "})"];
    }
    var ySym := "f(x_{" + NatStr(j + 1) + "})";
    var fSym := "\\cssId{fx" + NatStr(j + 1) + "}{" + ySym + "}";
    TagText(j, ySym);
    var numExpr := Join(numParts, "\\cdot ");
    var denomExpr := Join(denomParts, "\\cdot ");
    s := "\\frac{" + numExpr + "}{" + denomExpr + "} \\cdot " + fSym;
    FractionText(numParts, denomParts, fSym);
  }

  // ---------------------------------------------------------------------
  // Numeric terms (formatBasisNumeric)

  function NumericNum(pts: seq<Point>, m: nat, fmt3: real -> string): string
    requires m < |pts|
  {
    "(x - " + fmt3(pts[m].x) + ")"
  }

  function NumericDen(pts: seq<Point>, j: nat, m: nat, fmt3: real -> string): string
    requires j < |pts| && m < |pts|
  {
    "(" + fmt3(pts[j].x) + " - " + fmt3(pts[m].x) + ")"
  }

  function NumericNums(pts: seq<Point>, j: nat, k: nat, fmt3: real -> string): seq<string>
    requires k <= |pts|
  {
    var ms := Others(j, k);
    seq(|ms|, i requires 0 <= i < |ms| => NumericNum(pts, ms[i], fmt3))
  }

  function NumericDens(pts: seq<Point>, j: nat, k: nat, fmt3: real -> string): seq<string>
    requires j < |pts| && k <= |pts|
  {
    var ms := Others(j, k);
    seq(|ms|, i requires 0 <= i < |ms| => NumericDen(pts, j, ms[i], fmt3))
  }

  /** The body of term j's tagged factor in numeric form: (yⱼ). */
  function NumericY(pts: seq<Point>, j: nat, fmt3: real -> string): string
    requires j < |pts|
  {
    "(" + fmt3(pts[j].y) + ")"
  }

  /** Term j in numeric form: the coordinates substituted, as fmt3 renders them. */
  function NumericTerm(pts: seq<Point>, j: nat, fmt3: real -> string): string
    requires j < |pts|
  {
    Fraction(NumericNums(pts, j, |pts|, fmt3), NumericDens(pts, j, |pts|, fmt3),
             CssId(FxId(j), NumericY(pts, j, fmt3)))
  }

  lemma NumericStep(pts: seq<Point>, j: nat, m: nat, fmt3: real -> string)
    requires j < |pts| && m < |pts|
    ensures m == j ==> NumericNums(pts, j, m + 1, fmt3) == NumericNums(pts, j, m, fmt3)
    ensures m == j ==> NumericDens(pts, j, m + 1, fmt3) == NumericDens(pts, j, m, fmt3)
    ensures m != j ==> NumericNums(pts, j, m + 1, fmt3) == NumericNums(pts, j, m, fmt3) + [NumericNum(pts, m, fmt3)]
    ensures m != j ==> NumericDens(pts, j, m + 1, fmt3) == NumericDens(pts, j, m, fmt3) + [NumericDen(pts, j, m, fmt3)]
  {
  }

  method FormatBasisNumeric(allPoints: seq<Point>, j: nat, fmt3: real -> string) returns (s: string)
    requires j < |allPoints|
    ensures s == NumericTerm(allPoints, j, fmt3)
  {
    var n := |allPoints|;
    var numParts: seq<string> := [];
    var denomParts: seq<string> := [];
    for m := 0 to n
      invariant numParts == NumericNums(allPoints, j, m, fmt3)
      invariant denomParts == NumericDens(allPoints, j, m, fmt3)
    {
      NumericStep(allPoints, j, m, fmt3);
      if m == j {
        continue;
      }
      var xm := fmt3(allPoints[m].x);
      numParts := numParts + ["(x - " + xm + ")"];
      var xj := fmt3(allPoints[j].x);
      denomParts := denomParts + ["(" + xj + " - " + xm + ")"];
      assert numParts[|numParts| - 1] == NumericNum(allPoints, m, fmt3);
      assert denomParts[|denomParts| - 1] == NumericDen(allPoints, j, m, fmt3);
    }
    var yj := fmt3(allPoints[j].y);
    var numExpr := Join(numParts, "\\cdot ");
    var denomExpr := Join(denomParts, "\\cdot ");
    var fTag := "\\cssId{fx" + NatStr(j + 1) + "}{" + ("(" + yj + ")") + "}";
    TagText(j, "(" + yj + ")");
    s := "\\frac{" + numExpr + "}{" + denomExpr + "} \\cdot " + fTag;
    FractionText(numParts, denomParts, fTag);
  }

  // ---------------------------------------------------------------------
  // The whole formula (the string branch of updateMath)

  function Header(n: nat): string
  {
    "<strong>Lagrange Polynomial (n = " + NatStr(n) + "):</strong><br/>"
  }

  /** Term j's formatted text in the chosen display mode. */
  function Term(points: seq<Point>, j: nat, displayNumeric: bool, fmt3: real -> string): string
    requires j < |points|
  {
    if displayNumeric then NumericTerm(points, j, fmt3) else SymbolicTerm(j, |points|)
  }

  function Terms(points: seq<Point>, displayNumeric: bool, fmt3: real -> string): seq<string>
  {
    seq(|points|, j requires 0 <= j < |points| => Term(points, j, displayNumeric, fmt3))
  }

  /** What follows the header: a notice, the lone constant, or the sum of the terms. */
  function MathBody(points: seq<Point>, displayNumeric: bool, fmt3: real -> string): string
  {
    if |points| == 0 then "No points defined."
    else if |points| == 1 then "$$P(x) = " + CssId("fx1", fmt3(points[0].y)) + "$$"
    else "$$P(x) = " + Join(Terms(points, displayNumeric, fmt3), " + ") + "$$"
  }

  /** The formula block for the permanent points. */
  function MathHtml(points: seq<Point>, displayNumeric: bool, fmt3: real -> string): string
  {
    Header(|points|) + MathBody(points, displayNumeric, fmt3)
  }

  /** The lone-constant template is the constant tagged fx1. */
  lemma ConstantText(y: string)
    ensures "$$P(x) = \\cssId{fx1}{" + y + "}$$" == "$$P(x) = " + CssId("fx1", y) + "$$"
  {
    assert "$$P(x) = \\cssId{fx1}{" == "$$P(x) = " + "\\cssId{" + "fx1" + "}{";
  }

  /** Pushing term j extends the prefix of the term list by one. */
  lemma TermsStep(points: seq<Point>, displayNumeric: bool, fmt3: real -> string, j: nat, t: string)
    requires j < |points|
    requires t == Term(points, j, displayNumeric, fmt3)
    ensures Terms(points, displayNumeric, fmt3)[..j] + [t] == Terms(points, displayNumeric, fmt3)[..j + 1]
  {
    var ts := Terms(points, displayNumeric, fmt3);
    assert ts[..j + 1] == ts[..j] + [ts[j]];
  }

  /** updateMath, up to handing the text to the page. */
  method UpdateMath(points: seq<Point>, displayNumeric: bool, fmt3: real -> string) returns (curHtml: string)
    ensures curHtml == MathHtml(points, displayNumeric, fmt3)
  {
    curHtml := "<strong>Lagrange Polynomial (n = " + NatStr(|points|) + "):</strong><br/>";
    assert curHtml == Header(|points|);
    if |points| == 0 {
      curHtml := curHtml + "No points defined.";
      return;
    } else if |points| == 1 {
      var yVal := fmt3(points[0].y);
      ConstantText(yVal);
      curHtml := curHtml + "$$P(x) = \\cssId{fx1}{" + yVal + "}$$";
    } else {
      var terms: seq<string> := [];
      for j := 0 to |points|
        invariant terms == Terms(points, displayNumeric, fmt3)[..j]
      {
        var termTex;
        if displayNumeric {
          termTex := FormatBasisNumeric(points, j, fmt3);
        } else {
          termTex := FormatBasisSymbolic(points, j);
        }
        TermsStep(points, displayNumeric, fmt3, j, termTex);
        terms := terms + [termTex];
      }
      assert terms == Terms(points, displayNumeric, fmt3);
      curHtml := curHtml + "$$P(x) = " + Join(terms, " + ") + "$$";
    }
  }

  // ---------------------------------------------------------------------
  // Properties

  /** Different points carry different identifiers. */
  lemma FxIdsDistinct(j: nat, k: nat)
    ensures FxId(j) == FxId(k) <==> j == k
  {
    if FxId(j) == FxId(k) {
      assert FxId(j)[2..] == NatStr(j + 1);
      assert FxId(k)[2..] == NatStr(k + 1);
      NatStrInjective(j + 1, k + 1);
    }
  }

  /** The constant shown for a single point carries the identifier of point 1.
      It follows from the definition of FxId; it records that the literal
      `fx1` of the single-point branch is point 0's identifier. */
  lemma SinglePointTag()
    ensures FxId(0) == "fx1"
  {
  }

  /** Every term ends with its point's tagged y factor: f(x_{j+1}) in
      symbolic mode, (yⱼ) in numeric mode, under identifier fx{j+1}. */
  lemma TermTagged(points: seq<Point>, j: nat, displayNumeric: bool, fmt3: real -> string)
    requires j < |points|
    ensures EndsWith(Term(points, j, displayNumeric, fmt3),
                     CssId(FxId(j), if displayNumeric then NumericY(points, j, fmt3) else SymbolicY(j)))
  {
    var y := CssId(FxId(j), if displayNumeric then NumericY(points, j, fmt3) else SymbolicY(j));
    var t := Term(points, j, displayNumeric, fmt3);
    var front := if displayNumeric
      then "\\frac{" + Join(NumericNums(points, j, |points|, fmt3), CDOT) + "}{" + Join(NumericDens(points, j, |points|, fmt3), CDOT) + "} \\cdot "
      else "\\frac{" + Join(NumSyms(j, |points|), CDOT) + "}{" + Join(DenSyms(j, |points|), CDOT) + "} \\cdot ";
    assert t == front + y;
    assert t[|t| - |y|..] == y;
  }

  predicate NoClosingBrace(s: string) { forall i :: 0 <= i < |s| ==> s[i] != '}' }

  /** `\cssId{id}{…}` determines id when id has no closing brace. */
  lemma CssIdDeterminesId(a: string, b: string, a2: string, b2: string)
    requires NoClosingBrace(a) && NoClosingBrace(a2)
    requires CssId(a, b) == CssId(a2, b2)
    ensures a == a2
  {
    var s := CssId(a, b);
    var p := "\\cssId{";
    assert |p| == 7;
    assert s == p + a + "}{" + b + "}";
    assert CssId(a2, b2) == p + a2 + "}{" + b2 + "}";
    assert forall i :: 0 <= i < |a| ==> s[7 + i] == a[i];
    assert forall i :: 0 <= i < |a2| ==> s[7 + i] == a2[i];
    assert s[7 + |a|] == '}';
    assert s[7 + |a2|] == '}';
    assert |a| == |a2|;
    assert a == s[7..7 + |a|] == a2;
  }

  /** Point identifiers contain no closing brace. */
  lemma FxIdNoClosingBrace(j: nat)
    ensures NoClosingBrace(FxId(j))
  {
    var d := NatStr(j + 1);
    assert forall i :: 2 <= i < |FxId(j)| ==> FxId(j)[i] == d[i - 2];
  }

  /** The tags that terms j ≠ k end with differ, in either display mode, so
      each y factor in the formula is addressed by exactly one point. */
  lemma TermTagsDistinct(points: seq<Point>, j: nat, k: nat, displayNumeric: bool, fmt3: real -> string)
    requires j < |points| && k < |points| && j != k
    ensures CssId(FxId(j), if displayNumeric then NumericY(points, j, fmt3) else SymbolicY(j))
         != CssId(FxId(k), if displayNumeric then NumericY(points, k, fmt3) else SymbolicY(k))
  {
    FxIdNoClosingBrace(j);
    FxIdNoClosingBrace(k);
    FxIdsDistinct(j, k);
    if CssId(FxId(j), if displayNumeric then NumericY(points, j, fmt3) else SymbolicY(j))
       == CssId(FxId(k), if displayNumeric then NumericY(points, k, fmt3) else SymbolicY(k)) {
      CssIdDeterminesId(FxId(j), if displayNumeric then NumericY(points, j, fmt3) else SymbolicY(j),
                        FxId(k), if displayNumeric then NumericY(points, k, fmt3) else SymbolicY(k));
    }
  }

  /** The numeric term has the symbolic term's factor structure: n − 1
      numerator and denominator factors, the i-th for the i-th point other
      than j, with the coordinates substituted. */
  lemma NumericTermFactors(pts: seq<Point>, j: nat, fmt3: real -> string)
    requires j < |pts|
    ensures |NumericNums(pts, j, |pts|, fmt3)| == |pts| - 1
    ensures |NumericDens(pts, j, |pts|, fmt3)| == |pts| - 1
    ensures forall i :: 0 <= i < |pts| - 1 ==>
      NumericNums(pts, j, |pts|, fmt3)[i] == "(x - " + fmt3(pts[Skip(j, i)].x) + ")" &&
      NumericDens(pts, j, |pts|, fmt3)[i] == "(" + fmt3(pts[j].x) + " - " + fmt3(pts[Skip(j, i)].x) + ")"
  {
    OthersShape(j, |pts|);
  }

  /** With two or more points the formula is `P(x) = ` followed by exactly
      one term per point, joined by ` + `, term j formatted in the chosen
      mode. It follows from the definitions of MathHtml and MathBody and
      records their shape in one statement. */
  lemma FormulaHasOneTermPerPoint(points: seq<Point>, displayNumeric: bool, fmt3: real -> string)
    requires |points| >= 2
    ensures MathHtml(points, displayNumeric, fmt3) ==
      Header(|points|) + ("$$P(x) = " + Join(Terms(points, displayNumeric, fmt3), " + ") + "$$")
    ensures |Terms(points, displayNumeric, fmt3)| == |points|
    ensures forall j :: 0 <= j < |points| ==>
      Terms(points, displayNumeric, fmt3)[j] ==
        (if displayNumeric then NumericTerm(points, j, fmt3) else SymbolicTerm(j, |points|))
  {
  }

  /** The symbolic formula does not depend on where the points are. */
  lemma SymbolicFormulaIgnoresCoordinates(p: seq<Point>, q: seq<Point>, fmt3: real -> string)
    requires |p| == |q| >= 2
    ensures MathHtml(p, false, fmt3) == MathHtml(q, false, fmt3)
  {
    assert Terms(p, false, fmt3) == Terms(q, false, fmt3);
  }
}
