# Hudson map and diamond decomposition signs, in Dafny

This project models the two computational pieces of a small seismology
plotting repository.

* **`ae_uvt`** (`hudson.py`) maps source-type coordinates (τ, k) onto the
  Hudson plotting plane (u, v). For each element it scales the first
  coordinate to `TAU = TT * (1 - |KK|)`. It then applies five region masks in
  source order. Each mask that holds overwrites the element's (u, v) with its
  own rational formula. The masks are the off-diagonal quadrants, region A and
  region B of the first quadrant, and region A and region B of the third
  quadrant. The call raises `ValueError` if an output is still NaN at the end.
  The reference grid of the Hudson plot is 40 calls of this map over a lattice
  of tenths in [-1, 1].
* **The per-event loop of `plot_moment_tensor_diamond`** (`diamond.py`)
  assembles a symmetric 3×3 moment tensor from each 6-value row. It takes the
  first three weights of the decomposition, `res[0..2][1]`, which the code
  labels dc, clvd and iso, and signs the clvd and iso weights. The CLVD sign comes from the eigenvalues in solver order; the
  ISO sign comes from the trace.

Files:

* `results.dfy`: `Option` and `Result`.
* `real_arith.dfy`: `Abs` over reals.
* `hudson.dfy`: module `Hudson`, the point map, the array passes, `ae_uvt` and
  its properties.
* `hudson_grid.dfy`: module `HudsonGrid`, the arguments of the grid calls.
* `diamond.dfy`: module `Diamond`, tensor assembly, the two signs and the loop.

Modelling choices:

* Arithmetic is exact (`real`). An array cell that numpy leaves NaN is `None`.
  An element is either `None` or `Some` point, because UU and VV are always
  written together.
* Where a formula's divisor is zero, numpy divides by zero and produces an
  infinite coordinate. It does not produce NaN, because the numerator is
  nonzero whenever the divisor vanishes under its mask
  (`Hudson.ZeroDivisorNumeratorsNonzero`). So no `ValueError` is
  raised there. The model records such a point as `Coord.Diverged`, a defined
  but infinite point.
* The eigen-solver and the decomposition are foreign. They enter
  `Diamond.Event` as function parameters `eigvals` and `decompose` that are
  deterministic but otherwise unconstrained.
* The decomposition's weights are taken positionally: `res[0][1]`, `res[1][1]`
  and `res[2][1]`, which the source stores as dc, clvd and iso.

Facts about the code worth knowing up front:

* The six values fill the upper triangle row by row: (0,0) (0,1) (0,2)
  (1,1) (1,2) (2,2) (diamond.py:22-24).
* First-quadrant region B and third-quadrant region A both select the origin.
  Both give (0, 0) there, so the order of the overwrites does not matter
  (`Hudson.RegionsOverlap`, `Hudson.OrderIrrelevant`).
* With abs(KK) ≤ 1, a divisor can vanish under its mask only once
  abs(TT) ≥ 4 (`Hudson.FiniteBelowFour`, `Hudson.UnboundedPointDiverges`).
  Every grid call stays within abs(TT) ≤ 1.
* On abs(TT) ≤ 1 and abs(KK) ≤ 1 the points lie within abs(u) ≤ 4/3 and
  abs(v) ≤ 1, not the unit square: the reference grid itself reaches
  u = 4/3 at TT = 1, KK = 1/5 (`Hudson.BoundedPointInPlane`,
  `HudsonGrid.GridReachesFourThirds`).

## Model

| member | source | states |
|---|---|---|
| Hudson.Scale | hudson.py:6 | `TAU = TT * (1 - np.abs(KK))` for one element, the definition every point lemma is stated in; `ScaleWithinStrip` and `ScaleBelowFour` bound it |
| Hudson.Divisor | hudson.py:17-32 | the denominators 1 − TAU/2, 1 − 2·KK, 1 + TAU/2 and 1 + 2·KK of the four quadrant regions, which `Formula`, `DivisorBounded` and `ZeroDivisorNumeratorsNonzero` are about; the constant 1 for the off-diagonal mask is a modelling device, since the source copies TAU and KK there without dividing |
| RealArith.Abs | hudson.py:6 | `np.abs` on one real: non-negative, and equal to x or −x |
| Hudson.InRegion | hudson.py:11-30 | the five masks, the definition the region lemmas are about; the off-diagonal mask needs TAU·KK < 0, the other four lie in the closed first or third quadrant |
| Hudson.Overwrite | hudson.py:12-32 | one `UU[II] = …; VV[II] = …` on one cell, the step the sweep lemmas are about; a defined cell stays defined, and an undefined cell becomes defined only under its mask |
| Hudson.Sweep | hudson.py:10-32 | the masks of a sequence applied in turn to one cell, the definition `SweepResult` characterises; a defined cell stays defined |
| Hudson.MapPoint | hudson.py:6-32 | the per-element model of `ae_uvt`, the definition the point lemmas are about; a defined result is the formula of the directly classified region |
| Hudson.Formula | hudson.py:12-32 | a region's point is finite exactly when its divisor is nonzero; then u·divisor = TAU and v·divisor = KK, and the off-diagonal point is (TAU, KK) itself |
| Hudson.Classify | hudson.py:11-32 | every (TAU, KK) lies in at least one of the five masks |
| Hudson.RegionsOverlap | hudson.py:11-32 | two different masks hold together only at TAU = KK = 0, and only first-quadrant region B with third-quadrant region A |
| Hudson.OverlapAgrees | hudson.py:16-32 | where two masks hold together, their formulas give the same point |
| Hudson.SweepResult | hudson.py:10-32 | after any sequence of mask passes, a cell holds the formula of any mask that selects it, or is untouched when none does |
| Hudson.MapPointRegion | hudson.py:6-32 | an element lands on the formula of whichever mask holds for it |
| Hudson.MapPointDefined | hudson.py:6-35 | no element stays undefined, and the result equals the direct classification's formula |
| Hudson.OffDiagonalIdentity | hudson.py:6-13 | off-diagonal elements map to exactly (TAU, KK) |
| Hudson.OriginMapsToOrigin | hudson.py:20-28 | the origin is selected by two masks and maps to (0, 0) |
| Hudson.OrderIrrelevant | hudson.py:10-32 | applying the masks in any order, with any repetitions, gives the same result as the source order |
| Hudson.FirstQuadrantContinuity | hudson.py:15-23 | regions A and B agree on TAU = 4·KK; elsewhere their difference is a multiple of TAU − 4·KK |
| Hudson.ThirdQuadrantContinuity | hudson.py:25-32 | the same for the third-quadrant formulas |
| Hudson.DivisorBounded | hudson.py:16-32 | with abs(TAU) ≤ 1, every divisor used under its mask is at least 1/2 |
| Hudson.ScaleWithinStrip | hudson.py:6 | with abs(TT) ≤ 1 and abs(KK) ≤ 1, abs(TAU) ≤ 1 − abs(KK) |
| Hudson.FormulaInPlane | hudson.py:11-32 | inside the strip abs(TAU) ≤ 1 − abs(KK), every selecting mask's formula is finite with abs(u) ≤ 4/3 and abs(v) ≤ 1 |
| Hudson.BoundedPointInPlane | hudson.py:6-32 | an element with abs(TT) ≤ 1 and abs(KK) ≤ 1 maps to a finite point with abs(u) ≤ 4/3 and abs(v) ≤ 1 |
| Hudson.BoundedPointReachesFourThirds | hudson.py:21-23 | TT = 1, KK = 1/5 falls in first-quadrant region B and maps to (4/3, 1/3), so the bound on u is attained |
| Hudson.ScaleBelowFour | hudson.py:6 | with abs(TT) < 4 and abs(KK) ≤ 1, for abs(KK) < 1, abs(TAU) < 4·(1 − abs(KK)), and TAU = 0 when abs(KK) = 1 |
| Hudson.FiniteBelowFour | hudson.py:6-32 | an element with abs(TT) < 4 and abs(KK) ≤ 1 maps to a finite point |
| Hudson.UnboundedPointDiverges | hudson.py:20-23 | TT = 4, KK = 1/2 reaches a zero divisor, so some bound on TT is needed |
| Hudson.ZeroDivisorNumeratorsNonzero | hudson.py:16-32 | where a divisor vanishes under its mask, TAU and KK are both nonzero, so the division yields an infinite value and never 0/0 = NaN |
| Hudson.ScaleAll | hudson.py:6 | TAU has one entry per element, TAU[i] = TT[i]·(1 − abs(KK[i])) |
| Hudson.Unassigned | hudson.py:7-8 | the output arrays start with every cell undefined |
| Hudson.MaskPass | hudson.py:11-13 | one mask pass keeps the length, changes only the selected cells, and writes the region's formula there |
| Hudson.Passes | hudson.py:10-32 | a sequence of mask passes keeps the array length |
| Hudson.PassesPointwise | hudson.py:10-32 | after the passes, cell i depends only on cell i, TAU[i] and KK[i] |
| Hudson.AllDefined | hudson.py:34-37 | the outputs are returned exactly when every cell is defined, with each cell's value in place |
| Hudson.AeUvt | hudson.py:5-37 | the call fails exactly when some element is undefined; on success there is one point per element, in order, and point i is the map of (TT[i], KK[i]) |
| Hudson.NeverRaises | hudson.py:34-35 | the `ValueError` branch is unreachable for every input |
| Hudson.BoundedInputsFinite | hudson.py:5-37 | on inputs bounded by 1 in absolute value, every output point is finite, with abs(u) ≤ 4/3 and abs(v) ≤ 1 |
| Hudson.AeUvtLoop | hudson.py:5-37 | the mask-by-mask array passes followed by the NaN scan compute the same result as `AeUvt` |
| HudsonGrid.Axis | hudson.py:57 | the lattice has 21 values, from −1 through 0 to 1, all within [−1, 1] |
| HudsonGrid.Constant | hudson.py:60 | `c * np.ones_like(VV)` holds c in every cell |
| HudsonGrid.GridCall | hudson.py:59-70 | each of the 40 grid calls passes two 21-element arguments bounded by 1 |
| HudsonGrid.GridCurvesFinite | hudson.py:57-70 | none of the 40 grid calls raises; each returns 21 points, all finite, with abs(u) ≤ 4/3 and abs(v) ≤ 1 |
| HudsonGrid.GridReachesFourThirds | hudson.py:57-70 | call 33 (KK = 1/5) maps its last point, TT = 1, to (4/3, 1/3), outside the unit square |
| Diamond.UpperIndex | diamond.py:22-24 | each upper-triangle position is fed by one of the six columns |
| Diamond.UpperIndexOrdered | diamond.py:22-24 | columns 0..5 fill the upper triangle in row-major order: (0,0) (0,1) (0,2) (1,1) (1,2) (2,2) |
| Diamond.Assemble | diamond.py:22-24 | the matrix is symmetric, and entry (i, j) with i ≤ j holds the column of its row-major upper-triangle position |
| Diamond.UpperTriangle | diamond.py:22-24 | reading a matrix's upper triangle row by row gives back the six values |
| Diamond.AssembleRoundTrip | diamond.py:22-24 | a row is recovered from its assembled matrix |
| Diamond.SymmetricRoundTrip | diamond.py:22-24 | every symmetric matrix is the assembly of its own upper triangle |
| Diamond.Trace | diamond.py:32 | `np.trace(M)`, the definition `TraceOfRow`, `SignIso` and `NegationFlipsIso` are about |
| Diamond.TraceOfRow | diamond.py:22-32 | the trace of an assembled row is m0 + m3 + m5 |
| Diamond.SignClvd | diamond.py:30-31 | the CLVD sign is ±1, and +1 exactly when e1 + e3 − 2·e2 > 0, so a tie gives −1 |
| Diamond.SignIso | diamond.py:32 | the ISO sign is ±1, and +1 exactly when the trace is positive, so a zero trace gives −1 |
| Diamond.ClvdSignSwap | diamond.py:31 | swapping the first and third eigenvalue keeps the CLVD sign |
| Diamond.ClvdSignDependsOnOrder | diamond.py:30-31 | moving the middle eigenvalue can change the CLVD sign |
| Diamond.ClvdTieIsNegative | diamond.py:31 | three equal eigenvalues give CLVD sign −1 |
| Diamond.IsoTieIsNegative | diamond.py:32 | a traceless tensor gives ISO sign −1 |
| Diamond.NegationFlipsIso | diamond.py:22-32 | negating the row negates every entry and the trace; the ISO sign flips unless the trace is 0, where it stays −1 |
| Diamond.Event | diamond.py:22-34 | dc is the first weight unchanged; clvd and iso keep their weights' magnitudes, with the signs set by the eigenvalue test and by m0 + m3 + m5 |
| Diamond.EventNegation | diamond.py:27-34 | if the weights of a tensor and its negation agree, negating the row keeps dc and flips iso unless the trace is 0 |
| Diamond.DiamondPoints | diamond.py:14-34 | one point per row, in row order, and point i is the event of row i |
| Diamond.RowsIndependent | diamond.py:14-34 | appending rows leaves earlier points unchanged, and equal rows give equal points |
| Diamond.PlotMomentTensorDiamond | diamond.py:14-34 | the loop fills the three zero-initialised arrays with one entry per row, equal to the events in row order |

## Left out

- `MomentTensor.standard_decomposition` (diamond.py:27-28) is a foreign routine whose formula is not part of this model. Its weights are unconstrained inputs, so no bound such as weights ∈ [0, 1] is claimed. The model takes `res[0]`, `res[1]` and `res[2]` by position, as the source does. Whether the routine lists its components in the order DC, CLVD, ISO is not decided here; pyrocko documents a list that begins with the isotropic entry.
- `np.linalg.eigvals` (diamond.py:30) is a foreign solver with unspecified output order. The model takes its result as a given triple and does not relate it to the matrix.
- Failures of the foreign calls are not modelled: a `LinAlgError` from `np.linalg.eigvals` (diamond.py:30) or an exception from `standard_decomposition` (diamond.py:28) aborts the whole call, since the source has no `try`, but `eigvals` and `decompose` are total function parameters.
- Diamond.EventNegation: the claim that the DC weight is invariant under a global sign flip depends on the foreign decomposition, so it is stated only under the hypothesis that the weights of a tensor and of its negation agree.
- IEEE-754 behaviour is not modelled: NaN or infinite inputs, rounding, and the floating-point steps of `np.arange`. The grid uses exact tenths.
- Hudson.AeUvt: a zero divisor yields the point `Diverged` instead of numpy's signed infinities; only the fact that the point is not finite is kept.
- Hudson.AeUvt: equal lengths of TT and KK are a precondition. numpy would raise a broadcasting or indexing error otherwise, and every caller passes equal lengths.
- The outputs UU and VV are returned as one sequence of (u, v) points instead of two arrays.
- All matplotlib rendering: the diamond background, colormap and colorbar (diamond.py:36-88), and the axes, grid drawing and `plt.show` (hudson.py:50-54, 61-70, 84).
- `hudson.draw_axes`, `hudson.project` and `plot_beachball_mpl` (hudson.py:54, 75, 81) are foreign plotting and projection calls.
- The example and random `__main__` drivers (diamond.py:90-94, hudson.py:86-93).
