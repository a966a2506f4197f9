/** The curve sampler duplicated in drawBasisCurves and drawFullPolynomial
    (script.js:119-158). It walks SAMPLE_STEPS + 1 equally spaced abscissas
    over [X_MIN, X_MAX]; a `first` flag starts a new polyline after every
    non-finite sample. The canvas calls are abstracted: `moveTo` starts a
    new segment, `lineTo` extends the last one. */
module Sampler {
  import opened Wrappers
  import opened Config
  import opened Transform
  import opened Lagrange

  /** One evaluated abscissa; value is None when it is not finite. */
  datatype Sample = Sample(x: real, value: Option<real>)

  /** A stroked basis curve: its hue (the HSL string is not modelled) and
      its polyline segments. */
  datatype Curve = Curve(hue: real, segments: seq<seq<Pixel>>)

  // ---------------------------------------------------------------------
  // Abscissas and colours

  /** The i-th abscissa: X_MIN + (i / SAMPLE_STEPS)·(X_MAX − X_MIN). */
  function SampleX(i: nat): real
  {
    X_MIN + ((i as real) / (SAMPLE_STEPS as real)) * (X_MAX - X_MIN)
  }

  /** The abscissas a curve is sampled at: SAMPLE_STEPS + 1 of them, from
      X_MIN to X_MAX, equally spaced. */
  function Abscissas(): (xs: seq<real>)
    ensures |xs| == SAMPLE_STEPS + 1
    ensures xs[0] == X_MIN && xs[SAMPLE_STEPS] == X_MAX
    ensures forall i :: 0 <= i < SAMPLE_STEPS ==> xs[i + 1] - xs[i] == (X_MAX - X_MIN) / (SAMPLE_STEPS as real)
    ensures forall i :: 0 <= i <= SAMPLE_STEPS ==> X_MIN <= xs[i] <= X_MAX
  {
    seq(SAMPLE_STEPS + 1, i requires 0 <= i <= SAMPLE_STEPS => SampleX(i))
  }

  /** The hue of basis curve idx of total (basisColor): idx/total·360 degrees. */
  function BasisHue(idx: nat, total: nat): (h: real)
    requires idx < total
    ensures 0.0 <= h < 360.0
  {
    ((idx as real) / (total as real)) * 360.0
  }

  /** The hues are evenly spaced around the wheel, so distinct indices get
      distinct colours. */
  lemma HuesEvenlySpaced(idx: nat, total: nat)
    requires idx + 1 < total
    ensures BasisHue(idx + 1, total) - BasisHue(idx, total) == 360.0 / (total as real)
    ensures BasisHue(idx, total) < BasisHue(idx + 1, total)
  {
    var t := total as real;
    assert ((idx + 1) as real) / t == (idx as real) / t + 1.0 / t;
  }

  // ---------------------------------------------------------------------
  // The polyline of a sample sequence

  /** The pixel a finite sample is drawn at. */
  function Plotted(s: Sample): Pixel
    requires s.value.Some?
  {
    CoordToCanvas(s.x, s.value.value)
  }

  /** The value of the `first` flag after the given samples: nothing drawn
      yet, or the last sample was not finite. */
  predicate StartsNew(done: seq<Sample>)
  {
    |done| == 0 || done[|done| - 1].value.None?
  }

  /** One iteration of the sampling loop: a non-finite sample draws nothing
      (and sets `first`), a finite one either starts a segment (`moveTo`)
      or extends the last one (`lineTo`). */
  function Extend(segs: seq<seq<Pixel>>, first: bool, s: Sample): (r: seq<seq<Pixel>>)
    requires first || |segs| > 0
    ensures s.value.Some? ==> |r| > 0
    ensures (forall k :: 0 <= k < |segs| ==> |segs[k]| > 0) ==> forall k :: 0 <= k < |r| ==> |r[k]| > 0
  {
    if s.value.None? then segs
    else if first then segs + [[Plotted(s)]]
    else segs[..|segs| - 1] + [segs[|segs| - 1] + [Plotted(s)]]
  }

  /** The segments the loop has drawn after the given samples. A segment is
      never empty, and a finite last sample leaves at least one segment. */
  function Segments(samples: seq<Sample>): (segs: seq<seq<Pixel>>)
    ensures forall k :: 0 <= k < |segs| ==> |segs[k]| > 0
    ensures !StartsNew(samples) ==> |segs| > 0
  {
    if |samples| == 0 then []
    else
      var done := samples[..|samples| - 1];
      Extend(Segments(done), StartsNew(done), samples[|samples| - 1])
  }

  /** The loop's step: one more sample extends the drawing by Extend. */
  lemma SegmentsStep(samples: seq<Sample>, i: nat)
    requires i < |samples|
    ensures Segments(samples[..i + 1]) == Extend(Segments(samples[..i]), StartsNew(samples[..i]), samples[i])
    ensures StartsNew(samples[..i + 1]) == samples[i].value.None?
  {
    assert samples[..i + 1][..i] == samples[..i];
  }

  /** Extending a drawing that has earlier segments in front leaves those alone. */
  lemma ExtendAfter(a: seq<seq<Pixel>>, b: seq<seq<Pixel>>, first: bool, s: Sample)
    requires first || |b| > 0
    ensures Extend(a + b, first, s) == a + Extend(b, first, s)
  {
    if s.value.Some? && !first {
      var ab := a + b;
      assert ab[..|ab| - 1] == a + b[..|b| - 1];
    }
  }

  /** All pixels of the finite samples, in order. */
  function FinitePixels(samples: seq<Sample>): seq<Pixel>
  {
    if |samples| == 0 then []
    else
      var s := samples[|samples| - 1];
      FinitePixels(samples[..|samples| - 1]) + (if s.value.Some? then [Plotted(s)] else [])
  }

  function Flatten(segs: seq<seq<Pixel>>): seq<Pixel>
  {
    if |segs| == 0 then [] else Flatten(segs[..|segs| - 1]) + segs[|segs| - 1]
  }

  predicate AllFinite(samples: seq<Sample>)
  {
    forall i :: 0 <= i < |samples| ==> samples[i].value.Some?
  }

  predicate NoneFinite(samples: seq<Sample>)
  {
    forall i :: 0 <= i < |samples| ==> samples[i].value.None?
  }

  lemma FlattenAppend(segs: seq<seq<Pixel>>, seg: seq<Pixel>)
    ensures Flatten(segs + [seg]) == Flatten(segs) + seg
  {
    assert (segs + [seg])[..|segs|] == segs;
  }

  /** Together the segments hold every finite sample, in order, and nothing else. */
  lemma {:induction false} SegmentsCoverFiniteSamples(samples: seq<Sample>)
    ensures Flatten(Segments(samples)) == FinitePixels(samples)
  {
    if |samples| > 0 {
      var done := samples[..|samples| - 1];
      var s := samples[|samples| - 1];
      var segs := Segments(done);
      SegmentsCoverFiniteSamples(done);
      if s.value.Some? {
        if StartsNew(done) {
          FlattenAppend(segs, [Plotted(s)]);
        } else {
          var k := |segs| - 1;
          assert segs == segs[..k] + [segs[k]];
          FlattenAppend(segs[..k], segs[k]);
          FlattenAppend(segs[..k], segs[k] + [Plotted(s)]);
        }
      }
    }
  }

  /** A non-finite sample closes the polyline: what follows it is drawn as
      if the sampling had started afresh. */
  lemma {:induction false} SegmentsSplitAtGap(before: seq<Sample>, gap: Sample, after: seq<Sample>)
    requires gap.value.None?
    ensures Segments(before + [gap] + after) == Segments(before) + Segments(after)
  {
    var whole := before + [gap] + after;
    if |after| == 0 {
      assert whole == before + [gap];
      assert whole[..|whole| - 1] == before;
      assert Segments(whole) == Extend(Segments(before), StartsNew(before), gap);
    } else {
      var done := after[..|after| - 1];
      var s := after[|after| - 1];
      var front := before + [gap] + done;
      assert whole[..|whole| - 1] == front;
      assert whole[|whole| - 1] == s;
      assert Segments(whole) == Extend(Segments(front), StartsNew(front), s);
      SegmentsSplitAtGap(before, gap, done);
      assert StartsNew(front) == StartsNew(done);
      assert Segments(after) == Extend(Segments(done), StartsNew(done), s);
      ExtendAfter(Segments(before), Segments(done), StartsNew(done), s);
    }
  }

  /** A run of finite samples is drawn as one segment. */
  lemma {:induction false} SegmentsOfFiniteRun(run: seq<Sample>)
    requires |run| > 0 && AllFinite(run)
    ensures Segments(run) == [FinitePixels(run)]
  {
    var done := run[..|run| - 1];
    if |done| > 0 {
      SegmentsOfFiniteRun(done);
    } else {
      assert done == [];
      assert Segments(run) == Extend([], true, run[0]);
      assert FinitePixels(run) == FinitePixels(done) + [Plotted(run[0])] == [Plotted(run[0])];
      assert Extend([], true, run[0]) == [[Plotted(run[0])]];
    }
  }

  /** Non-finite samples only: nothing is drawn. */
  lemma {:induction false} SegmentsOfNonFinite(samples: seq<Sample>)
    requires NoneFinite(samples)
    ensures Segments(samples) == []
  {
    if |samples| > 0 {
      SegmentsOfNonFinite(samples[..|samples| - 1]);
    }
  }

  /** Exactly one non-finite sample between two finite runs gives exactly
      two segments, one per run. */
  lemma OneGapTwoSegments(before: seq<Sample>, gap: Sample, after: seq<Sample>)
    requires |before| > 0 && AllFinite(before) && |after| > 0 && AllFinite(after)
    requires gap.value.None?
    ensures Segments(before + [gap] + after) == [FinitePixels(before), FinitePixels(after)]
  {
    SegmentsSplitAtGap(before, gap, after);
    SegmentsOfFiniteRun(before);
    SegmentsOfFiniteRun(after);
  }

  lemma {:induction false} FinitePixelsOfFiniteRun(run: seq<Sample>)
    requires AllFinite(run)
    ensures |FinitePixels(run)| == |run|
  {
    if |run| > 0 {
      FinitePixelsOfFiniteRun(run[..|run| - 1]);
    }
  }

  // ---------------------------------------------------------------------
  // The two curves

  /** Basis curve j's samples at the SAMPLE_STEPS + 1 abscissas. */
  function BasisSamples(pts: seq<Point>, j: nat): seq<Sample>
    requires j < |pts|
  {
    seq(SAMPLE_STEPS + 1, i requires 0 <= i <= SAMPLE_STEPS => Sample(SampleX(i), BasisValue(pts, j, SampleX(i))))
  }

  /** The polynomial's samples at the SAMPLE_STEPS + 1 abscissas. */
  function PolySamples(pts: seq<Point>): seq<Sample>
  {
    seq(SAMPLE_STEPS + 1, i requires 0 <= i <= SAMPLE_STEPS => Sample(SampleX(i), Polynomial(pts, SampleX(i))))
  }

  /** Both curves are sampled at exactly the abscissas of Abscissas(). */
  lemma SamplesAtAbscissas(pts: seq<Point>, j: nat)
    requires j < |pts|
    ensures |BasisSamples(pts, j)| == |PolySamples(pts)| == |Abscissas()|
    ensures forall i :: 0 <= i < |Abscissas()| ==>
      BasisSamples(pts, j)[i].x == Abscissas()[i] && PolySamples(pts)[i].x == Abscissas()[i]
  {
  }

  /** Basis curves are skipped when they are switched off or there are no
      points (script.js:120-123). */
  predicate DrawsBasisCurves(showBasisCurves: bool, n: nat)
  {
    showBasisCurves && n != 0
  }

  /** The polynomial curve needs at least two points (script.js:144). */
  predicate DrawsPolynomial(n: nat)
  {
    n >= 2
  }

  function BasisCurves(pts: seq<Point>, showBasisCurves: bool): seq<Curve>
  {
    if DrawsBasisCurves(showBasisCurves, |pts|) then
      seq(|pts|, j requires 0 <= j < |pts| => Curve(BasisHue(j, |pts|), Segments(BasisSamples(pts, j))))
    else []
  }

  function PolynomialCurve(pts: seq<Point>): seq<seq<Pixel>>
  {
    if DrawsPolynomial(|pts|) then Segments(PolySamples(pts)) else []
  }

  /** The inner loop of drawBasisCurves for one j. */
  method DrawBasisCurve(allPoints: seq<Point>, j: nat) returns (segs: seq<seq<Pixel>>)
    requires j < |allPoints|
    ensures segs == Segments(BasisSamples(allPoints, j))
  {
    ghost var samples := BasisSamples(allPoints, j);
    segs := [];
    var first := true;
    for i := 0 to SAMPLE_STEPS + 1
      invariant segs == Segments(samples[..i])
      invariant first == StartsNew(samples[..i])
    {
      SegmentsStep(samples, i);
      var t := (i as real) / (SAMPLE_STEPS as real);
      var x := X_MIN + t * (X_MAX - X_MIN);
      var term := LagrangeBasisTerm(allPoints, j, x);
      assert samples[i] == Sample(x, term.value);
      if term.value.None? {
        first := true;
        continue;
      }
      var p := CoordToCanvas(x, term.value.value);
      if first {
        segs := segs + [[p]];
        first := false;
      } else {
        segs := segs[..|segs| - 1] + [segs[|segs| - 1] + [p]];
      }
    }
    assert samples[..SAMPLE_STEPS + 1] == samples;
  }

  /** drawBasisCurves: one curve per point, coloured by its index. */
  method DrawBasisCurves(allPoints: seq<Point>, showBasisCurves: bool) returns (curves: seq<Curve>)
    ensures !DrawsBasisCurves(showBasisCurves, |allPoints|) ==> curves == []
    ensures DrawsBasisCurves(showBasisCurves, |allPoints|) ==>
      |curves| == |allPoints| &&
      forall j :: 0 <= j < |allPoints| ==>
        curves[j] == Curve(BasisHue(j, |allPoints|), Segments(BasisSamples(allPoints, j)))
  {
    curves := [];
    if !showBasisCurves {
      return;
    }
    var n := |allPoints|;
    if n == 0 {
      return;
    }
    for j := 0 to n
      invariant |curves| == j
      invariant forall k :: 0 <= k < j ==> curves[k] == Curve(BasisHue(k, n), Segments(BasisSamples(allPoints, k)))
    {
      var segs := DrawBasisCurve(allPoints, j);
      curves := curves + [Curve(BasisHue(j, n), segs)];
    }
  }

  /** drawFullPolynomial. */
  method DrawFullPolynomial(allPoints: seq<Point>) returns (segs: seq<seq<Pixel>>)
    ensures segs == PolynomialCurve(allPoints)
  {
    segs := [];
    if |allPoints| < 2 {
      return;
    }
    ghost var samples := PolySamples(allPoints);
    var first := true;
    for i := 0 to SAMPLE_STEPS + 1
      invariant segs == Segments(samples[..i])
      invariant first == StartsNew(samples[..i])
    {
      SegmentsStep(samples, i);
      var t := (i as real) / (SAMPLE_STEPS as real);
      var x := X_MIN + t * (X_MAX - X_MIN);
      var y := EvaluatePolynomial(allPoints, x);
      assert samples[i] == Sample(x, y);
      if y.None? {
        first := true;
        continue;
      }
      var p := CoordToCanvas(x, y.value);
      if first {
        segs := segs + [[p]];
        first := false;
      } else {
        segs := segs[..|segs| - 1] + [segs[|segs| - 1] + [p]];
      }
    }
    assert samples[..SAMPLE_STEPS + 1] == samples;
  }

  // ---------------------------------------------------------------------
  // What the sampler draws for distinct and for repeated abscissas

  /** With distinct abscissas and at least two points the polynomial is one
      unbroken polyline through all SAMPLE_STEPS + 1 samples. */
  lemma DistinctPolynomialCurve(pts: seq<Point>)
    requires Distinct(pts) && |pts| >= 2
    ensures |PolynomialCurve(pts)| == 1
    ensures |PolynomialCurve(pts)[0]| == SAMPLE_STEPS + 1
  {
    var samples := PolySamples(pts);
    forall i | 0 <= i < |samples| ensures samples[i].value.Some? {
      PolynomialFiniteIffDistinct(pts, SampleX(i));
    }
    SegmentsOfFiniteRun(samples);
    FinitePixelsOfFiniteRun(samples);
  }

  /** A repeated abscissa makes every polynomial sample non-finite, so the
      polynomial curve draws nothing. */
  lemma RepeatedXNoPolynomialCurve(pts: seq<Point>)
    requires !Distinct(pts)
    ensures PolynomialCurve(pts) == []
  {
    var samples := PolySamples(pts);
    forall i | 0 <= i < |samples| ensures samples[i].value.None? {
      PolynomialFiniteIffDistinct(pts, SampleX(i));
    }
    SegmentsOfNonFinite(samples);
  }

  /** Basis curve j is one unbroken polyline when no other point repeats
      xⱼ, and draws nothing when one does. */
  lemma BasisCurveShape(pts: seq<Point>, j: nat)
    requires j < |pts|
    ensures !RepeatsX(pts, j) ==> Segments(BasisSamples(pts, j)) == [FinitePixels(BasisSamples(pts, j))]
    ensures RepeatsX(pts, j) ==> Segments(BasisSamples(pts, j)) == []
  {
    var samples := BasisSamples(pts, j);
    forall i | 0 <= i < |samples| ensures samples[i].value.None? <==> RepeatsX(pts, j) {
      BasisNonFiniteIff(pts, j, SampleX(i));
    }
    if RepeatsX(pts, j) {
      SegmentsOfNonFinite(samples);
    } else {
      SegmentsOfFiniteRun(samples);
    }
  }
}
