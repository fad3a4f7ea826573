/**
 * The reference grid of `plot_beachball_from_matrices` (hudson.py:56-70): 40
 * calls of `ae_uvt` that sweep one coordinate over `np.arange(-1, 1.1, 0.1)`
 * while holding the other at a lattice value. Only the coordinates are
 * modelled; drawing the curves is not.
 */
module HudsonGrid {
  import opened RealArith
  import opened Hudson

  /** `np.arange(-1, 1.1, 0.1)` with exact tenths: -1, -0.9, ..., 1. */
  function Axis(): (vv: seq<real>)
    ensures |vv| == 21
    ensures forall i :: 0 <= i < |vv| ==> -1.0 <= vv[i] <= 1.0
    ensures vv[0] == -1.0 && vv[10] == 0.0 && vv[20] == 1.0
  {
    seq(21, i requires 0 <= i < 21 => (i - 10) as real / 10.0)
  }

  /** `c * np.ones_like(VV)`. */
  function Constant(c: real, n: nat): (cs: seq<real>)
    ensures |cs| == n && forall i :: 0 <= i < n ==> cs[i] == c
  {
    seq(n, _ => c)
  }

  /** The (TT, KK) arguments of the n-th grid call, in the loop's order: for
      each i < 10, first KK = VV[i], then KK = -VV[i], then TT = VV[i], then
      TT = -VV[i], the other argument being VV itself. */
  function GridCall(n: nat): (args: (seq<real>, seq<real>))
    requires n < 40
    ensures |args.0| == 21 && |args.1| == 21
    ensures forall j :: 0 <= j < 21 ==> Abs(args.0[j]) <= 1.0 && Abs(args.1[j]) <= 1.0
  {
    var vv := Axis();
    var c := vv[n / 4];
    match n % 4
    case 0 => (vv, Constant(c, 21))
    case 1 => (vv, Constant(-c, 21))
    case 2 => (Constant(c, 21), vv)
    case _ => (Constant(-c, 21), vv)
  }

  /** No grid call raises, and every grid point is finite, with |u| <= 4/3
      and |v| <= 1: each divisor the grid reaches is nonzero. */
  lemma GridCurvesFinite(n: nat)
    requires n < 40
    ensures AeUvt(GridCall(n).0, GridCall(n).1).Success?
    ensures |AeUvt(GridCall(n).0, GridCall(n).1).value| == 21
    ensures forall j :: 0 <= j < 21 ==> AeUvt(GridCall(n).0, GridCall(n).1).value[j].Finite?
    ensures forall j :: 0 <= j < 21 ==>
      var p := AeUvt(GridCall(n).0, GridCall(n).1).value[j];
      Abs(p.u) <= 4.0 / 3.0 && Abs(p.v) <= 1.0
  {
    var args := GridCall(n);
    BoundedInputsFinite(args.0, args.1);
  }

  /** The grid leaves the unit square: call 33 holds KK = -VV[8] = 1/5, and
      its last point, TT = 1, lands at u = 4/3. */
  lemma GridReachesFourThirds()
    ensures AeUvt(GridCall(33).0, GridCall(33).1).Success?
    ensures AeUvt(GridCall(33).0, GridCall(33).1).value[20] == Finite(4.0 / 3.0, 1.0 / 3.0)
  {
    var args := GridCall(33);
    assert args.0[20] == 1.0 && args.1[20] == 0.2;
    NeverRaises(args.0, args.1);
    BoundedPointReachesFourThirds();
  }
}
