# Lagrange interpolation visualizer, modelled in Dafny

This project models the core of an interactive Lagrange-interpolation
visualizer, `script.js`, in Dafny. You click points onto a 600 px canvas
that shows the plot square [-10, 10] × [-10, 10]. The page then draws each
Lagrange basis term yⱼ·ℓⱼ(x) as a coloured curve and the interpolating
polynomial as a bold curve. It also prints the polynomial as a LaTeX
formula whose yⱼ factors carry the identifiers `fx1`, `fx2`, … that the
points table highlights.

The model works over exact `real` arithmetic. A value that is not finite in
JavaScript (Infinity or NaN) is `None`. Number formatting with `toFixed(3)`
is foreign to the model: the formatters take it as a parameter
`fmt3: real -> string`.

Modules, one per component:

- `Config`: the constants (script.js:2-10).
- `Transform`: `canvasToCoord`, `coordToCanvas` and the `Point`/`Pixel` values.
- `Text`: decimal rendering of indices and `Array.prototype.join`.
- `Lagrange`: `lagrangeBasisTerm` and `evaluatePolynomial`.
  - Both are loop methods, each proved equal to a recursive specification.
  - Beside them are the Kronecker-delta property, the interpolation theorem,
    and the exact condition under which a denominator is zero.
- `Sampler`: the sampling loop with its `first` flag, for both curves.
  - `moveTo` starts a new segment and `lineTo` extends the last one.
  - The draw guards and the hue of each basis curve are here too.
- `Formatter`: `formatBasisSymbolic`, `formatBasisNumeric` and the string
  branch of `updateMath`.
- `Interaction`: the page state as a class `PlotState`.
  - Its methods are the click, mousemove, mouseleave, toggle and clear handlers.
  - `RedrawAll` computes one redraw pass. The curves use the snapshot with the
    hover point appended; the formula uses the permanent points only.

Behaviour of the code worth noting:

- The two checkboxes set their flag to the checkbox value (script.js:376, 381). They do not flip it.
- The formula carries only the identifier `fx{j+1}` on each term's yⱼ factor
  (script.js:249, 270, 289). No per-factor identifiers or per-term style classes are emitted.
- Suppose two points share an abscissa. Then the denominator of the affected
  basis terms is zero at every sample, so every polynomial sample is
  non-finite. The polynomial curve therefore draws no segment at all
  (`Sampler.RepeatedXNoPolynomialCurve`). Each affected basis curve also draws nothing, and every other basis curve is drawn
  unbroken (`Sampler.BasisCurveShape`).

## Model

| member | source | states |
|---|---|---|
| `Transform.CoordToCanvas` | script.js:32-36 | coordToCanvas without clamping; its contract is stated by `CoordRoundTrip`, `CanvasRoundTrip` and `OnCanvasIffInBounds` |
| `Transform.CanvasToCoord` | script.js:27-31 | canvasToCoord; its contract is stated by `CanvasRoundTrip`, `CoordRoundTrip`, `Corners` and `Orientation` |
| `Transform.CanvasRoundTrip` | script.js:27-36 | coordToCanvas(canvasToCoord(px, py)) is (px, py) exactly over the reals |
| `Transform.CoordRoundTrip` | script.js:27-36 | canvasToCoord(coordToCanvas(x, y)) is (x, y) exactly over the reals |
| `Transform.Corners` | script.js:2-4 | pixel (0,0) is (X_MIN, Y_MAX) and pixel (600,600) is (X_MAX, Y_MIN) |
| `Transform.OnCanvasIffInBounds` | script.js:32-36 | without clamping, a coordinate maps onto the canvas exactly when it lies inside the plot bounds |
| `Transform.Orientation` | script.js:27-31 | x grows to the right, and y grows upwards while pixel rows grow downwards |
| `Text.Join` | script.js:250-251 | `Array.prototype.join`: the parts with the separator between consecutive ones, and nothing for no parts |
| `Text.JoinIsJoinFront` | script.js:250-251 | the join equals the front-first reading: first part, separator, join of the rest |
| `Text.NatStr` | script.js:59-60 | an index is rendered as a non-empty string of decimal digits with no leading zero |
| `Text.ParseNatStr` | script.js:59-60 | reading the rendered digits back gives the number |
| `Text.NatStrInjective` | script.js:59-60 | different indices are rendered differently |
| `Lagrange.Others` | script.js:51-52 | the factor loop visits only indices below n and skips j |
| `Lagrange.OthersShape` | script.js:51-52 | the visited indices are exactly the m ≠ j, in increasing order, n − 1 of them |
| `Lagrange.LagrangeBasisTerm` | script.js:45-70 | the value is yⱼ·Π(x−xₘ)/Π(xⱼ−xₘ), None when the denominator is 0; the symbol lists are the factor labels for m ≠ j; yj is the point's y |
| `Lagrange.SymsShape` | script.js:59-60 | numeratorSyms and denomSyms have n − 1 entries each; entry i is `(x - x_{m+1})` and `(x_{j+1} - x_{m+1})` for the i-th m ≠ j |
| `Lagrange.DenProdZeroIff` | script.js:51-57 | the denominator product is zero exactly when a visited m ≠ j has xₘ = xⱼ |
| `Lagrange.BasisNonFiniteIff` | script.js:62-63 | a basis term is non-finite exactly when another point repeats xⱼ, at every x |
| `Lagrange.NumProdAtOwnNode` | script.js:56-57 | at x = xⱼ the numerator product equals the denominator product |
| `Lagrange.NumProdAtOtherNode` | script.js:56 | at another node xᵢ the numerator product is 0 |
| `Lagrange.BasisKronecker` | script.js:45-70 | with distinct abscissas, term j at xₖ is yⱼ when k = j and 0 otherwise |
| `Lagrange.EvaluatePolynomial` | script.js:73-80 | the loop sum equals the sum of all basis values; it is non-finite when any term is |
| `Lagrange.PolySumAtNode` | script.js:74-78 | at node xᵢ the prefix sum is yᵢ once term i is included and 0 before |
| `Lagrange.Interpolation` | script.js:73-80 | with distinct abscissas the polynomial at xᵢ is yᵢ |
| `Lagrange.PolynomialOfNoPoints` | script.js:74 | the empty point list evaluates to 0 |
| `Lagrange.PolySumNoneIff` | script.js:74-78 | a prefix sum is non-finite exactly when one of its terms is |
| `Lagrange.PolynomialFiniteIffDistinct` | script.js:51-79 | the polynomial is finite exactly when the abscissas are pairwise distinct, in both directions |
| `Lagrange.LineThroughTwoPoints` | script.js:73-80 | through (0,0) and (1,1) the polynomial at 0.5 is 0.5 |
| `Lagrange.ParabolaThroughThreePoints` | script.js:73-80 | through (0,0), (1,1), (2,0) the polynomial is 0, 1, 0 at 0, 1, 2 |
| `Sampler.Abscissas` | script.js:129-131 | SAMPLE_STEPS + 1 abscissas, the first X_MIN and the last X_MAX, all inside the bounds, equally spaced by (X_MAX − X_MIN)/SAMPLE_STEPS |
| `Sampler.SamplesAtAbscissas` | script.js:129-131 | both curves are sampled at exactly the SAMPLE_STEPS + 1 abscissas of `Abscissas` |
| `Sampler.BasisHue` | script.js:39-42 | the hue idx/total·360 lies in [0, 360) |
| `Sampler.HuesEvenlySpaced` | script.js:40 | consecutive basis curves' hues are 360/n apart and increasing |
| `Sampler.Extend` | script.js:133-136 | a non-finite sample draws nothing; a finite one leaves at least one segment and keeps every segment non-empty |
| `Sampler.Segments` | script.js:128-137 | no segment drawn is ever empty, and a finite last sample leaves a segment open |
| `Sampler.SegmentsStep` | script.js:129-137 | one more sample extends the drawing by one loop step, and after it `first` is set exactly when the sample was non-finite |
| `Sampler.SegmentsCoverFiniteSamples` | script.js:128-137 | together the segments hold the pixels of all finite samples, in order, and nothing else |
| `Sampler.SegmentsSplitAtGap` | script.js:133 | following a non-finite sample, drawing restarts as if sampling had just begun |
| `Sampler.SegmentsOfFiniteRun` | script.js:135-136 | a run of finite samples is one segment |
| `Sampler.SegmentsOfNonFinite` | script.js:133 | only non-finite samples: nothing is drawn |
| `Sampler.OneGapTwoSegments` | script.js:128-137 | one non-finite sample between two finite runs gives exactly two segments, one per run |
| `Sampler.DrawBasisCurve` | script.js:128-137 | the inner loop of drawBasisCurves draws the segments of basis term j's samples at all SAMPLE_STEPS + 1 abscissas |
| `Sampler.DrawsBasisCurves` | script.js:120-123 | basis curves are drawn only when they are switched on and there is at least one point |
| `Sampler.DrawsPolynomial` | script.js:144 | the polynomial curve is drawn only with at least two points |
| `Sampler.DrawBasisCurves` | script.js:119-140 | nothing when basis curves are off or there are no points; otherwise one curve per point j with hue j/n·360 and term j's segments |
| `Sampler.DrawFullPolynomial` | script.js:143-159 | nothing below two points; otherwise the segments of the polynomial's samples |
| `Sampler.DistinctPolynomialCurve` | script.js:143-159 | with distinct abscissas and two or more points the polynomial is one unbroken polyline of SAMPLE_STEPS + 1 pixels |
| `Sampler.RepeatedXNoPolynomialCurve` | script.js:149-157 | with a repeated abscissa the polynomial curve draws no segment |
| `Sampler.BasisCurveShape` | script.js:128-137 | basis curve j is one unbroken polyline unless another point repeats xⱼ, and then it draws nothing |
| `Formatter.FormatBasisSymbolic` | script.js:240-253 | the term is `\frac{…}{…} \cdot \cssId{fx{j+1}}{f(x_{j+1})}`, its factor lists being the engine's symbol lists joined by `\cdot ` |
| `Formatter.FormatBasisNumeric` | script.js:256-271 | the same fraction with fmt3 of the coordinates substituted, ending in `\cssId{fx{j+1}}{(yⱼ)}` |
| `Formatter.NumericTermFactors` | script.js:260-266 | the numeric term has n − 1 numerator and denominator factors, the i-th for the i-th point other than j |
| `Formatter.TermTagged` | script.js:249-270 | every term, symbolic or numeric, ends with its yⱼ factor tagged fx{j+1} |
| `Formatter.FxIdsDistinct` | script.js:249-270 | different points carry different identifiers |
| `Formatter.TermTagsDistinct` | script.js:249-270 | terms j ≠ k end with different tags in either mode, so each y factor belongs to one point |
| `Formatter.SinglePointTag` | script.js:289 | the single point's constant carries the identifier of point 1 |
| `Formatter.UpdateMath` | script.js:281-299 | the formula text: placeholder for 0 points, the tagged constant for 1, otherwise the n terms joined by ` + ` |
| `Formatter.FormulaHasOneTermPerPoint` | script.js:290-298 | with at least two points the formula is `P(x) = ` plus exactly n terms joined by ` + `, term j in the chosen mode |
| `Formatter.SymbolicFormulaIgnoresCoordinates` | script.js:240-253 | the symbolic formula depends only on the number of points |
| `Interaction.HitRadiusIsAQuarter` | script.js:350-355 | the hit radius is 1/4 plot unit, so the squared threshold is 1/16 |
| `Interaction.FirstHit` | script.js:351-356 | the lowest index of a point strictly within the hit radius, or none when no point is |
| `Interaction.HitTest` | script.js:351-356 | the loop returns that lowest index, or −1 |
| `Interaction.ClickUpdateByIndex` | script.js:357-358 | splice at the found index, or push when it is −1 |
| `Interaction.Snapshot` | script.js:335-336 | the permanent points, then the hover point at the end when there is one |
| `Interaction.PlotState.constructor` | script.js:13-16 | no points, no hover point, symbolic display, basis curves shown |
| `Interaction.PlotState.Click` | script.js:345-361 | the first hit point is removed or the mapped point appended; hover cleared; flags unchanged |
| `Interaction.PlotState.MouseMove` | script.js:362-369 | hover becomes the mapped pointer position; nothing else changes |
| `Interaction.PlotState.MouseLeave` | script.js:370-373 | hover is cleared; nothing else changes |
| `Interaction.PlotState.ToggleNumeric` | script.js:375-378 | displayNumeric is assigned the checkbox value; nothing else changes |
| `Interaction.PlotState.ToggleBasisCurves` | script.js:380-383 | showBasisCurves is assigned the checkbox value; nothing else changes |
| `Interaction.PlotState.Clear` | script.js:385-389 | no points and no hover; flags unchanged |
| `Interaction.PlotState.RedrawAll` | script.js:332-342 | curves drawn for the snapshot with hover appended, formula for the permanent points only |
| `Interaction.Hits` | script.js:353-355 | a click hits a point when its distance is strictly below 1.5 point radii in plot units |
| `Interaction.ClickUpdate` | script.js:357-358 | the first hit point is spliced out, or the clicked point is pushed when nothing is hit |
| `Interaction.ClickRemovesLowestHit` | script.js:351-358 | when point i is the lowest-index point within the hit radius, the click removes exactly that point and the rest keep their order |
| `Interaction.ClickAppendsWhenNothingHit` | script.js:351-358 | when no point is within the hit radius, the clicked point is appended at the end |
| `Interaction.ClickOnPointRemoves` | script.js:351-357 | clicking exactly on a point removes one point and adds none |
| `Interaction.ClickTwiceRestores` | script.js:351-358 | a click where nothing is hit, repeated at the same place, restores the point list |
| `Interaction.HoverJoinsTheCurvesOnly` | script.js:282-338 | with one point and a hover point the polynomial curve is drawn, while the formula shows the single point |

## Left out

- Canvas painting: `drawAxes`, the point markers of `drawPoints`, `clearRect`, stroke colours and widths. Only the segment structure and the draw guards are modelled.
- `basisColor`'s HSL string is not modelled; `Sampler.BasisHue` models only the hue.
- The points table and the highlight handlers (`updateTable`, `highlightMathElement`, `clearMathHighlight`) are DOM manipulation.
- The `innerHTML` assignment and `appendChild` in `updateMath` are left out. So is the MathJax typesetting with its scale-to-fit, which is asynchronous, foreign and depends on layout measurements.
- The resize handler's `setTimeout` is timer plumbing.
- The `getBoundingClientRect` offset: the handlers start from canvas-local pixels.
- `toFixed(3)` is a parameter `fmt3` of the formatters, because it is foreign number formatting.
- IEEE-754 is not modelled: rounding, overflow, and NaN versus Infinity. A product that underflows to zero is not modelled either; the zero denominator is the only non-finite case.
- The redraw that ends every handler (script.js:360, 368, 372, 377, 382, 388) is modelled as calling `PlotState.RedrawAll` on the new state; the transition methods themselves produce no frame.
- `Math.hypot` is replaced by the equivalent comparison of the squared distance with the squared radius.
