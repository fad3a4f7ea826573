/**
 * The Hudson source-type map `ae_uvt` (hudson.py:5-37): each (TT, KK) pair is
 * scaled to TAU = TT * (1 - |KK|) and then sent through five region masks in
 * source order; every mask that holds overwrites the cell with its own
 * rational formula, and the call raises if a cell is still NaN at the end.
 *
 * Arithmetic is exact (`real`). A cell that numpy leaves NaN is `None`; a
 * formula whose divisor is zero (where numpy would produce an infinite
 * coordinate) is the point `Diverged`.
 */
module Hudson {
  import opened Results
  import opened RealArith

  /** A point of the (u, v) plane as a region formula leaves it. */
  datatype Coord = Finite(u: real, v: real) | Diverged

  /** The five masks of `ae_uvt`. */
  datatype Region = OffDiagonal | FirstA | FirstB | ThirdA | ThirdB

  /** The `ValueError` raised when some output is still NaN. */
  datatype HudsonError = UndefinedPoint

  /** The masks in the order the source applies them. */
  const SourceOrder: seq<Region> := [OffDiagonal, FirstA, FirstB, ThirdA, ThirdB]

  /** The scaled abscissa TAU of one element. */
  function Scale(tt: real, kk: real): real {
    tt * (1.0 - Abs(kk))
  }

  /** Whether the mask of region `g` selects the element (TAU, KK) = (tau, k). */
  predicate InRegion(g: Region, tau: real, k: real)
    ensures InRegion(g, tau, k) && g == OffDiagonal ==> tau * k < 0.0
    ensures InRegion(g, tau, k) && g != OffDiagonal ==> (tau >= 0.0 && k >= 0.0) || (tau <= 0.0 && k <= 0.0)
  {
    match g
    case OffDiagonal => (tau > 0.0 && k < 0.0) || (tau < 0.0 && k > 0.0)
    case FirstA => tau < 4.0 * k && tau >= 0.0 && k >= 0.0
    case FirstB => tau >= 4.0 * k && tau >= 0.0 && k >= 0.0
    case ThirdA => tau >= 4.0 * k && tau <= 0.0 && k <= 0.0
    case ThirdB => tau < 4.0 * k && tau <= 0.0 && k <= 0.0
  }

  /** The common denominator of a region's two formulas (the off-diagonal
      quadrants copy TAU and KK unchanged). */
  function Divisor(g: Region, tau: real, k: real): real {
    match g
    case OffDiagonal => 1.0
    case FirstA => 1.0 - tau / 2.0
    case FirstB => 1.0 - 2.0 * k
    case ThirdA => 1.0 + tau / 2.0
    case ThirdB => 1.0 + 2.0 * k
  }

  /** The (u, v) that region `g` assigns to (tau, k). */
  function Formula(g: Region, tau: real, k: real): (c: Coord)
    ensures c.Finite? <==> Divisor(g, tau, k) != 0.0
    ensures c.Finite? ==> c.u * Divisor(g, tau, k) == tau && c.v * Divisor(g, tau, k) == k
  {
    if g == OffDiagonal then Finite(tau, k)
    else
      var d := Divisor(g, tau, k);
      if d == 0.0 then Diverged else Finite(tau / d, k / d)
  }

  /** One mask applied to one cell: `UU[II] = ...; VV[II] = ...`. */
  function Overwrite(cell: Option<Coord>, g: Region, tau: real, k: real): (r: Option<Coord>)
    ensures cell.Some? ==> r.Some?
    ensures r.Some? && cell.None? ==> InRegion(g, tau, k)
  {
    if InRegion(g, tau, k) then Some(Formula(g, tau, k)) else cell
  }

  /** The masks of `order` applied one after the other to a single cell. */
  function Sweep(order: seq<Region>, cell: Option<Coord>, tau: real, k: real): (r: Option<Coord>)
    ensures cell.Some? ==> r.Some?
    decreases |order|
  {
    if order == [] then cell
    else Overwrite(Sweep(order[..|order| - 1], cell, tau, k), order[|order| - 1], tau, k)
  }

  /** What `ae_uvt` leaves in the cell of a single (TT, KK) element. */
  function MapPoint(tt: real, kk: real): (r: Option<Coord>)
    ensures r.Some? ==> r.value == Formula(Classify(Scale(tt, kk), kk), Scale(tt, kk), kk)
  {
    var tau := Scale(tt, kk);
    InSourceOrder(Classify(tau, kk));
    SweepResult(SourceOrder, None, tau, kk);
    Sweep(SourceOrder, None, tau, kk)
  }

  /** The source order lists every region. */
  lemma InSourceOrder(g: Region)
    ensures g in SourceOrder
  {
  }

  /** A direct classification of (tau, k), independent of the overwrite order. */
  function Classify(tau: real, k: real): (g: Region)
    ensures InRegion(g, tau, k)
  {
    if (tau > 0.0 && k < 0.0) || (tau < 0.0 && k > 0.0) then OffDiagonal
    else if tau >= 0.0 && k >= 0.0 then (if tau < 4.0 * k then FirstA else FirstB)
    else if tau < 4.0 * k then ThirdB
    else ThirdA
  }

  // ---------------------------------------------------------------------------
  // Region facts

  /** Two different masks select the same element only at the origin, and
      there only first-quadrant region B and third-quadrant region A. */
  lemma RegionsOverlap(g1: Region, g2: Region, tau: real, k: real)
    requires g1 != g2 && InRegion(g1, tau, k) && InRegion(g2, tau, k)
    ensures tau == 0.0 && k == 0.0
    ensures (g1 == FirstB && g2 == ThirdA) || (g1 == ThirdA && g2 == FirstB)
  {
  }

  /** Wherever two masks overlap, their formulas agree. */
  lemma OverlapAgrees(g1: Region, g2: Region, tau: real, k: real)
    requires InRegion(g1, tau, k) && InRegion(g2, tau, k)
    ensures Formula(g1, tau, k) == Formula(g2, tau, k)
  {
  }

  /** The outcome of any sequence of masks: the formula of a mask that holds
      (all such agree), or the untouched cell when none holds. */
  lemma {:induction false} SweepResult(order: seq<Region>, cell: Option<Coord>, tau: real, k: real)
    ensures forall g :: g in order && InRegion(g, tau, k) ==> Sweep(order, cell, tau, k) == Some(Formula(g, tau, k))
    ensures (forall g :: g in order ==> !InRegion(g, tau, k)) ==> Sweep(order, cell, tau, k) == cell
    decreases |order|
  {
    if order != [] {
      var init, last := order[..|order| - 1], order[|order| - 1];
      assert order == init + [last];
      SweepResult(init, cell, tau, k);
      forall g | g in order && InRegion(g, tau, k)
        ensures Sweep(order, cell, tau, k) == Some(Formula(g, tau, k))
      {
        if InRegion(last, tau, k) {
          OverlapAgrees(g, last, tau, k);
        } else {
          assert g in init;
        }
      }
    }
  }

  /** Every element ends up defined, with the formula of whichever mask holds. */
  lemma MapPointRegion(tt: real, kk: real, g: Region)
    requires InRegion(g, Scale(tt, kk), kk)
    ensures MapPoint(tt, kk) == Some(Formula(g, Scale(tt, kk), kk))
  {
    SweepResult(SourceOrder, None, Scale(tt, kk), kk);
    InSourceOrder(g);
  }

  /** The five masks cover every input: no element stays NaN, and the
      sequential overwrite agrees with the direct classification. */
  lemma MapPointDefined(tt: real, kk: real)
    ensures MapPoint(tt, kk).Some?
    ensures MapPoint(tt, kk) == Some(Formula(Classify(Scale(tt, kk), kk), Scale(tt, kk), kk))
  {
    MapPointRegion(tt, kk, Classify(Scale(tt, kk), kk));
  }

  /** Off-diagonal elements are copied: (u, v) == (TAU, KK). */
  lemma OffDiagonalIdentity(tt: real, kk: real)
    requires var tau := Scale(tt, kk); (tau > 0.0 && kk < 0.0) || (tau < 0.0 && kk > 0.0)
    ensures MapPoint(tt, kk) == Some(Finite(Scale(tt, kk), kk))
  {
    MapPointRegion(tt, kk, OffDiagonal);
  }

  /** The origin is selected by two masks and maps to (0, 0). */
  lemma OriginMapsToOrigin()
    ensures InRegion(FirstB, 0.0, 0.0) && InRegion(ThirdA, 0.0, 0.0)
    ensures MapPoint(0.0, 0.0) == Some(Finite(0.0, 0.0))
  {
  }

  /** The overwrite order is immaterial: any sequence of masks that lists all
      five regions, in any order and with any repetitions, gives the same cell. */
  lemma OrderIrrelevant(order: seq<Region>, tt: real, kk: real)
    requires forall g: Region :: g in order
    ensures Sweep(order, None, Scale(tt, kk), kk) == MapPoint(tt, kk)
  {
    var tau := Scale(tt, kk);
    var g := Classify(tau, kk);
    SweepResult(order, None, tau, kk);
    MapPointRegion(tt, kk, g);
  }

  // ---------------------------------------------------------------------------
  // Continuity across the region-A / region-B boundary TAU = 4 KK

  /** First quadrant: the two formulas share their divisor on TAU = 4 KK, and
      off the boundary they differ by a multiple of TAU - 4 KK, so the map
      does not jump where region A meets region B. */
  lemma FirstQuadrantContinuity(tau: real, k: real)
    ensures tau == 4.0 * k ==> Formula(FirstA, tau, k) == Formula(FirstB, tau, k)
    ensures Divisor(FirstA, tau, k) != 0.0 && Divisor(FirstB, tau, k) != 0.0 ==>
      var a, b := Formula(FirstA, tau, k), Formula(FirstB, tau, k);
      var den := 2.0 * Divisor(FirstA, tau, k) * Divisor(FirstB, tau, k);
      && a.u - b.u == tau * (tau - 4.0 * k) / den
      && a.v - b.v == k * (tau - 4.0 * k) / den
  {
  }

  /** Third quadrant: the same statement for the formulas of lines 27-28 and 31-32. */
  lemma ThirdQuadrantContinuity(tau: real, k: real)
    ensures tau == 4.0 * k ==> Formula(ThirdA, tau, k) == Formula(ThirdB, tau, k)
    ensures Divisor(ThirdA, tau, k) != 0.0 && Divisor(ThirdB, tau, k) != 0.0 ==>
      var a, b := Formula(ThirdA, tau, k), Formula(ThirdB, tau, k);
      var den := 2.0 * Divisor(ThirdA, tau, k) * Divisor(ThirdB, tau, k);
      && a.u - b.u == tau * (4.0 * k - tau) / den
      && a.v - b.v == k * (4.0 * k - tau) / den
  {
  }

  // ---------------------------------------------------------------------------
  // Divisors on the bounded domain

  lemma NonNegativeProduct(a: real, b: real)
    requires a >= 0.0 && b >= 0.0
    ensures a * b >= 0.0
  {
  }

  /** On |TAU| <= 1 every divisor used under its mask is at least 1/2. */
  lemma DivisorBounded(g: Region, tau: real, k: real)
    requires Abs(tau) <= 1.0 && InRegion(g, tau, k)
    ensures Divisor(g, tau, k) >= 0.5
  {
  }

  /** On |TT| <= 1 and |KK| <= 1 the scaled element stays in the strip
      |TAU| <= 1 - |KK|. */
  lemma ScaleWithinStrip(tt: real, kk: real)
    requires Abs(tt) <= 1.0 && Abs(kk) <= 1.0
    ensures Abs(Scale(tt, kk)) <= 1.0 - Abs(kk)
  {
    var s := 1.0 - Abs(kk);
    var a := Abs(tt);
    assert Abs(Scale(tt, kk)) == a * s by {
      assert Scale(tt, kk) == tt * s;
      NonNegativeProduct(a, s);
      if tt < 0.0 {
        assert tt * s == -(a * s);
      }
    }
    NonNegativeProduct(1.0 - a, s);
  }

  /** A quotient by a positive divisor inherits a bound on its numerator. */
  lemma QuotientBound(a: real, d: real, b: real)
    requires d > 0.0 && Abs(a) <= b * d
    ensures Abs(a / d) <= b
  {
  }

  /** Within the strip every region's formula lands in |u| <= 4/3, |v| <= 1. */
  lemma FormulaInPlane(g: Region, tau: real, k: real)
    requires InRegion(g, tau, k) && Abs(tau) <= 1.0 - Abs(k)
    ensures Formula(g, tau, k).Finite?
    ensures Abs(Formula(g, tau, k).u) <= 4.0 / 3.0 && Abs(Formula(g, tau, k).v) <= 1.0
  {
    var d := Divisor(g, tau, k);
    if g != OffDiagonal {
      DivisorBounded(g, tau, k);
      assert Abs(tau) <= 4.0 / 3.0 * d && Abs(k) <= 1.0 * d;
      QuotientBound(tau, d, 4.0 / 3.0);
      QuotientBound(k, d, 1.0);
    }
  }

  /** A bounded element maps to a finite point of the plane |u| <= 4/3,
      |v| <= 1. */
  lemma BoundedPointInPlane(tt: real, kk: real)
    requires Abs(tt) <= 1.0 && Abs(kk) <= 1.0
    ensures MapPoint(tt, kk).Some? && MapPoint(tt, kk).value.Finite?
    ensures Abs(MapPoint(tt, kk).value.u) <= 4.0 / 3.0 && Abs(MapPoint(tt, kk).value.v) <= 1.0
  {
    var tau := Scale(tt, kk);
    ScaleWithinStrip(tt, kk);
    FormulaInPlane(Classify(tau, kk), tau, kk);
    MapPointDefined(tt, kk);
  }

  /** The bound on u is attained inside the bounded domain: TT = 1, KK = 1/5
      gives TAU = 4/5 = 4 KK, region B of the first quadrant, and u = 4/3. */
  lemma BoundedPointReachesFourThirds()
    ensures MapPoint(1.0, 0.2) == Some(Finite(4.0 / 3.0, 1.0 / 3.0))
  {
    assert Scale(1.0, 0.2) == 0.8;
    MapPointRegion(1.0, 0.2, FirstB);
  }

  /** A divisor vanishes under its mask only where the numerators do not: a
      zero divisor gives an infinite coordinate, never 0/0. */
  lemma ZeroDivisorNumeratorsNonzero(g: Region, tau: real, k: real)
    requires InRegion(g, tau, k) && Divisor(g, tau, k) == 0.0
    ensures tau != 0.0 && k != 0.0
  {
  }

  /** With abs(TT) < 4 and abs(KK) <= 1, abs(TAU) stays below 4 (1 - abs(KK)),
      and TAU is 0 when abs(KK) = 1. */
  lemma ScaleBelowFour(tt: real, kk: real)
    requires Abs(tt) < 4.0 && Abs(kk) <= 1.0
    ensures Abs(kk) < 1.0 ==> Abs(Scale(tt, kk)) < 4.0 * (1.0 - Abs(kk))
    ensures Abs(kk) == 1.0 ==> Scale(tt, kk) == 0.0
  {
    var s := 1.0 - Abs(kk);
    var a := Abs(tt);
    assert Abs(Scale(tt, kk)) == a * s by {
      assert Scale(tt, kk) == tt * s;
      NonNegativeProduct(a, s);
      if tt < 0.0 {
        assert tt * s == -(a * s);
      }
    }
    if s > 0.0 {
      PositiveProduct(4.0 - a, s);
      assert (4.0 - a) * s == 4.0 * s - a * s;
    }
  }

  lemma PositiveProduct(a: real, b: real)
    requires a > 0.0 && b > 0.0
    ensures a * b > 0.0
  {
  }

  /** Every element with abs(TT) < 4 and abs(KK) <= 1 maps to a finite point:
      a divisor can vanish only from abs(TT) = 4 on. */
  lemma FiniteBelowFour(tt: real, kk: real)
    requires Abs(tt) < 4.0 && Abs(kk) <= 1.0
    ensures MapPoint(tt, kk).Some? && MapPoint(tt, kk).value.Finite?
  {
    ScaleBelowFour(tt, kk);
    MapPointDefined(tt, kk);
    var tau := Scale(tt, kk);
    assert Divisor(Classify(tau, kk), tau, kk) != 0.0;
  }

  /** Outside the bounded domain a divisor can vanish: TT = 4, KK = 1/2 gives
      TAU = 2 = 4 KK, region B of the first quadrant, and 1 - 2 KK = 0. */
  lemma UnboundedPointDiverges()
    ensures MapPoint(4.0, 0.5) == Some(Diverged)
  {
    assert Scale(4.0, 0.5) == 2.0;
    MapPointRegion(4.0, 0.5, FirstB);
  }

  // ---------------------------------------------------------------------------
  // The array level

  /** `TAU = TT * (1 - np.abs(KK))`, elementwise. */
  function ScaleAll(tt: seq<real>, kk: seq<real>): (taus: seq<real>)
    requires |tt| == |kk|
    ensures |taus| == |tt|
    ensures forall i :: 0 <= i < |tt| ==> taus[i] == tt[i] * (1.0 - Abs(kk[i]))
  {
    seq(|tt|, i requires 0 <= i < |tt| => Scale(tt[i], kk[i]))
  }

  /** `np.full_like(TT, np.nan)`. */
  function Unassigned(n: nat): (cells: seq<Option<Coord>>)
    ensures |cells| == n && forall i :: 0 <= i < n ==> cells[i].None?
  {
    seq(n, _ => None)
  }

  /** One mask over the whole array: only the selected cells change. */
  function MaskPass(cells: seq<Option<Coord>>, taus: seq<real>, ks: seq<real>, g: Region): (r: seq<Option<Coord>>)
    requires |taus| == |cells| && |ks| == |cells|
    ensures |r| == |cells|
    ensures forall i :: 0 <= i < |cells| && !InRegion(g, taus[i], ks[i]) ==> r[i] == cells[i]
    ensures forall i :: 0 <= i < |cells| && InRegion(g, taus[i], ks[i]) ==> r[i] == Some(Formula(g, taus[i], ks[i]))
  {
    seq(|cells|, i requires 0 <= i < |cells| => Overwrite(cells[i], g, taus[i], ks[i]))
  }

  /** The masks of `order` applied one after the other to the whole array. */
  function Passes(order: seq<Region>, cells: seq<Option<Coord>>, taus: seq<real>, ks: seq<real>): (r: seq<Option<Coord>>)
    requires |taus| == |cells| && |ks| == |cells|
    ensures |r| == |cells|
    decreases |order|
  {
    if order == [] then cells
    else MaskPass(Passes(order[..|order| - 1], cells, taus, ks), taus, ks, order[|order| - 1])
  }

  /** Array passes act on each cell independently: cell i sees only the masks
      evaluated at its own (TAU[i], KK[i]). */
  lemma {:induction false} PassesPointwise(order: seq<Region>, cells: seq<Option<Coord>>, taus: seq<real>, ks: seq<real>)
    requires |taus| == |cells| && |ks| == |cells|
    ensures forall i :: 0 <= i < |cells| ==> Passes(order, cells, taus, ks)[i] == Sweep(order, cells[i], taus[i], ks[i])
    decreases |order|
  {
    if order != [] {
      PassesPointwise(order[..|order| - 1], cells, taus, ks);
    }
  }

  /** `np.any(np.isnan(VV))` and the unwrapping of the arrays: the cells'
      values when all are defined, nothing otherwise. */
  function AllDefined(cells: seq<Option<Coord>>): (r: Option<seq<Coord>>)
    ensures r.Some? <==> forall i :: 0 <= i < |cells| ==> cells[i].Some?
    ensures r.Some? ==> |r.value| == |cells| && forall i :: 0 <= i < |cells| ==> r.value[i] == cells[i].value
  {
    if cells == [] then Some([])
    else if cells[0].None? then None
    else match AllDefined(cells[1..])
      case None => None
      case Some(rest) => Some([cells[0].value] + rest)
  }

  /** `ae_uvt(TT, KK)`: one point per element, in element order, each the
      point map of its own (TT[i], KK[i]); the call raises exactly when some
      element is left undefined. */
  function AeUvt(tt: seq<real>, kk: seq<real>): (r: Result<seq<Coord>, HudsonError>)
    requires |tt| == |kk|
    ensures r.Failure? <==> exists i :: 0 <= i < |tt| && MapPoint(tt[i], kk[i]).None?
    ensures r.Success? ==> |r.value| == |tt|
    ensures r.Success? ==> forall i :: 0 <= i < |tt| ==> r.value[i] == MapPoint(tt[i], kk[i]).value
  {
    var cells := Passes(SourceOrder, Unassigned(|tt|), ScaleAll(tt, kk), kk);
    PassesPointwise(SourceOrder, Unassigned(|tt|), ScaleAll(tt, kk), kk);
    match AllDefined(cells)
    case None => Failure(UndefinedPoint)
    case Some(points) => Success(points)
  }

  /** The `ValueError` branch is unreachable: `ae_uvt` succeeds on every input. */
  lemma NeverRaises(tt: seq<real>, kk: seq<real>)
    requires |tt| == |kk|
    ensures AeUvt(tt, kk).Success?
  {
    forall i | 0 <= i < |tt|
      ensures MapPoint(tt[i], kk[i]).Some?
    {
      MapPointDefined(tt[i], kk[i]);
    }
  }

  /** On inputs bounded by 1 in absolute value every output point is finite,
      with |u| <= 4/3 and |v| <= 1. */
  lemma BoundedInputsFinite(tt: seq<real>, kk: seq<real>)
    requires |tt| == |kk|
    requires forall i :: 0 <= i < |tt| ==> Abs(tt[i]) <= 1.0 && Abs(kk[i]) <= 1.0
    ensures AeUvt(tt, kk).Success?
    ensures forall i :: 0 <= i < |tt| ==> AeUvt(tt, kk).value[i].Finite?
    ensures forall i :: 0 <= i < |tt| ==>
      Abs(AeUvt(tt, kk).value[i].u) <= 4.0 / 3.0 && Abs(AeUvt(tt, kk).value[i].v) <= 1.0
  {
    NeverRaises(tt, kk);
    forall i | 0 <= i < |tt|
      ensures AeUvt(tt, kk).value[i].Finite?
      ensures Abs(AeUvt(tt, kk).value[i].u) <= 4.0 / 3.0 && Abs(AeUvt(tt, kk).value[i].v) <= 1.0
    {
      BoundedPointInPlane(tt[i], kk[i]);
    }
  }

  /** `ae_uvt` as the source runs it: one array pass per mask in source order,
      then a scan for an undefined cell. */
  method AeUvtLoop(tt: seq<real>, kk: seq<real>) returns (r: Result<seq<Coord>, HudsonError>)
    requires |tt| == |kk|
    ensures r.Failure? <==> exists i :: 0 <= i < |tt| && MapPoint(tt[i], kk[i]).None?
    ensures r.Success? ==> |r.value| == |tt|
    ensures r.Success? ==> forall i :: 0 <= i < |tt| ==> r.value[i] == MapPoint(tt[i], kk[i]).value
    ensures r == AeUvt(tt, kk)
  {
    var n := |tt|;
    var taus := ScaleAll(tt, kk);
    var cells := Unassigned(n);
    var p := 0;
    while p < |SourceOrder|
      invariant 0 <= p <= |SourceOrder|
      invariant |cells| == n
      invariant forall i :: 0 <= i < n ==> cells[i] == Sweep(SourceOrder[..p], None, taus[i], kk[i])
    {
      var g := SourceOrder[p];
      assert SourceOrder[..p + 1][..p] == SourceOrder[..p];
      var j := 0;
      while j < n
        invariant 0 <= j <= n
        invariant |cells| == n
        invariant forall i :: 0 <= i < j ==> cells[i] == Sweep(SourceOrder[..p + 1], None, taus[i], kk[i])
        invariant forall i :: j <= i < n ==> cells[i] == Sweep(SourceOrder[..p], None, taus[i], kk[i])
      {
        if InRegion(g, taus[j], kk[j]) {
          cells := cells[j := Some(Formula(g, taus[j], kk[j]))];
        }
        j := j + 1;
      }
      p := p + 1;
    }
    assert SourceOrder[..|SourceOrder|] == SourceOrder;
    var points: seq<Coord> := [];
    var j := 0;
    while j < n
      invariant 0 <= j <= n
      invariant |points| == j
      invariant forall i :: 0 <= i < j ==> cells[i].Some? && points[i] == cells[i].value
    {
      if cells[j].None? {
        assert MapPoint(tt[j], kk[j]).None?;
        return Failure(UndefinedPoint);
      }
      points := points + [cells[j].value];
      j := j + 1;
    }
    r := Success(points);
    assert AeUvt(tt, kk).Success?;
    assert AeUvt(tt, kk).value == points;
  }
}
