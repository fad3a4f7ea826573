/**
 * The per-event loop of `plot_moment_tensor_diamond` (diamond.py:14-34).
 * Each 6-value row becomes a symmetric 3x3 moment tensor; the CLVD and ISO
 * decomposition weights receive external signs taken from the eigenvalues
 * (in solver order) and from the trace, and the DC weight passes through.
 *
 * The eigen-solver (`np.linalg.eigvals`) and pyrocko's
 * `standard_decomposition` are foreign calls: they enter as deterministic
 * function parameters whose results are not constrained in any way.
 */
module Diamond {
  import opened RealArith

  /** One row of the input matrix: the values of columns 0..5. */
  datatype Row = Row(m0: real, m1: real, m2: real, m3: real, m4: real, m5: real)

  predicate IsMatrix3(m: seq<seq<real>>) {
    |m| == 3 && forall i :: 0 <= i < |m| ==> |m[i]| == 3
  }

  /** A 3x3 real matrix, as nested rows. */
  type Matrix3 = m: seq<seq<real>> | IsMatrix3(m)
    witness [[0.0, 0.0, 0.0], [0.0, 0.0, 0.0], [0.0, 0.0, 0.0]]

  predicate Symmetric(m: Matrix3) {
    forall i, j :: 0 <= i < 3 && 0 <= j < 3 ==> m[i][j] == m[j][i]
  }

  /** The eigenvalues (M1, M2, M3) in the order the solver returns them. */
  datatype Eigenvalues = Eigenvalues(e1: real, e2: real, e3: real)

  /** The ratios of the first three entries of the decomposition's list
      (`res[0][1]`, `res[1][1]`, `res[2][1]`), which the source reads as
      the DC, CLVD and ISO weights. */
  datatype Weights = Weights(dc: real, clvd: real, iso: real)

  /** The plotted triple of one event. */
  datatype Fractions = Fractions(dc: real, clvd: real, iso: real)

  /** The value in column `c` of a row. */
  function Column(r: Row, c: nat): real
    requires c < 6
  {
    match c
    case 0 => r.m0
    case 1 => r.m1
    case 2 => r.m2
    case 3 => r.m3
    case 4 => r.m4
    case _ => r.m5
  }

  /** The column that feeds entry (i, j), i <= j: the upper triangle read row
      by row, so (0,0) (0,1) (0,2) (1,1) (1,2) (2,2) take columns 0..5. */
  function UpperIndex(i: nat, j: nat): (c: nat)
    requires i <= j < 3
    ensures c < 6
  {
    if i == 0 then j else if i == 1 then j + 2 else 5
  }

  /** The upper-triangle numbering is a bijection onto the six columns, and it
      visits the positions in row-major order. */
  lemma UpperIndexOrdered(i: nat, j: nat, i': nat, j': nat)
    requires i <= j < 3 && i' <= j' < 3
    ensures UpperIndex(i, j) < UpperIndex(i', j') <==> i < i' || (i == i' && j < j')
  {
  }

  /** `np.array([[m0, m1, m2], [m1, m3, m4], [m2, m4, m5]])`. */
  function Assemble(r: Row): (m: Matrix3)
    ensures Symmetric(m)
    ensures forall i, j :: 0 <= i <= j < 3 ==> m[i][j] == Column(r, UpperIndex(i, j))
  {
    [[r.m0, r.m1, r.m2],
     [r.m1, r.m3, r.m4],
     [r.m2, r.m4, r.m5]]
  }

  /** Reads the six independent values back out of a matrix, row by row. */
  function UpperTriangle(m: Matrix3): (r: Row)
    ensures forall i, j :: 0 <= i <= j < 3 ==> Column(r, UpperIndex(i, j)) == m[i][j]
  {
    Row(m[0][0], m[0][1], m[0][2], m[1][1], m[1][2], m[2][2])
  }

  /** Assembly loses nothing: the row is recovered from its matrix. */
  lemma AssembleRoundTrip(r: Row)
    ensures UpperTriangle(Assemble(r)) == r
  {
  }

  /** Every symmetric matrix is the assembly of its own upper triangle, so
      assembly is onto the symmetric matrices. */
  lemma SymmetricRoundTrip(m: Matrix3)
    requires Symmetric(m)
    ensures Assemble(UpperTriangle(m)) == m
  {
    var a := Assemble(UpperTriangle(m));
    forall i | 0 <= i < 3
      ensures a[i] == m[i]
    {
      forall j | 0 <= j < 3
        ensures a[i][j] == m[i][j]
      {
        if i > j {
          assert m[i][j] == m[j][i];
        }
      }
    }
  }

  /** `np.trace(M)`. */
  function Trace(m: Matrix3): real {
    m[0][0] + m[1][1] + m[2][2]
  }

  /** The trace of an assembled row is the sum of columns 0, 3 and 5. */
  lemma TraceOfRow(r: Row)
    ensures Trace(Assemble(r)) == r.m0 + r.m3 + r.m5
  {
  }

  /** `sign_clvd`: +1 exactly when M1 + M3 - 2 M2 is strictly positive;
      a zero gives -1. */
  function SignClvd(e: Eigenvalues): (s: int)
    ensures s == 1 || s == -1
    ensures s == 1 <==> e.e1 + e.e3 - 2.0 * e.e2 > 0.0
  {
    if e.e1 + e.e3 - 2.0 * e.e2 > 0.0 then 1 else -1
  }

  /** `sign_iso`: +1 exactly when the trace is strictly positive; a zero
      trace gives -1. */
  function SignIso(m: Matrix3): (s: int)
    ensures s == 1 || s == -1
    ensures s == 1 <==> Trace(m) > 0.0
  {
    if Trace(m) > 0.0 then 1 else -1
  }

  /** Exchanging the first and third eigenvalue keeps the CLVD sign. */
  lemma ClvdSignSwap(e: Eigenvalues)
    ensures SignClvd(Eigenvalues(e.e3, e.e2, e.e1)) == SignClvd(e)
  {
  }

  /** Moving the middle eigenvalue does change it: the sign depends on the
      order the solver happens to return. */
  lemma ClvdSignDependsOnOrder()
    ensures SignClvd(Eigenvalues(2.0, 0.0, 0.0)) == 1
    ensures SignClvd(Eigenvalues(0.0, 2.0, 0.0)) == -1
  {
  }

  /** A CLVD tie resolves to -1: three equal eigenvalues give M1 + M3 - 2 M2 = 0. */
  lemma ClvdTieIsNegative(a: real)
    ensures SignClvd(Eigenvalues(a, a, a)) == -1
  {
  }

  /** An ISO tie resolves to -1: a traceless tensor gets the negative sign. */
  lemma IsoTieIsNegative(r: Row)
    requires r.m0 + r.m3 + r.m5 == 0.0
    ensures SignIso(Assemble(r)) == -1
  {
  }

  /** The row with all six values negated. */
  function Negate(r: Row): Row {
    Row(-r.m0, -r.m1, -r.m2, -r.m3, -r.m4, -r.m5)
  }

  /** Negating the row negates every matrix entry and the trace; the ISO sign
      flips when the trace is nonzero and stays -1 when it is zero. */
  lemma NegationFlipsIso(r: Row)
    ensures forall i, j :: 0 <= i < 3 && 0 <= j < 3 ==> Assemble(Negate(r))[i][j] == -Assemble(r)[i][j]
    ensures Trace(Assemble(Negate(r))) == -Trace(Assemble(r))
    ensures Trace(Assemble(r)) != 0.0 ==> SignIso(Assemble(Negate(r))) == -SignIso(Assemble(r))
    ensures Trace(Assemble(r)) == 0.0 ==> SignIso(Assemble(Negate(r))) == -1 == SignIso(Assemble(r))
  {
  }

  /** The loop body for one event:
      `dc[i], clvd[i], iso[i] = res[0][1], res[1][1] * sign_clvd, res[2][1] * sign_iso`. */
  function Event(r: Row, eigvals: Matrix3 -> Eigenvalues, decompose: Matrix3 -> Weights): (f: Fractions)
    ensures var w := decompose(Assemble(r));
      && f.dc == w.dc
      && Abs(f.clvd) == Abs(w.clvd)
      && Abs(f.iso) == Abs(w.iso)
    ensures var e, w := eigvals(Assemble(r)), decompose(Assemble(r));
      f.clvd == (if e.e1 + e.e3 - 2.0 * e.e2 > 0.0 then w.clvd else -w.clvd)
    ensures var w := decompose(Assemble(r));
      f.iso == (if r.m0 + r.m3 + r.m5 > 0.0 then w.iso else -w.iso)
  {
    var m := Assemble(r);
    var w := decompose(m);
    Fractions(w.dc, w.clvd * SignClvd(eigvals(m)) as real, w.iso * SignIso(m) as real)
  }

  /** When the decomposition weights of a tensor and of its negation agree,
      negating the row keeps DC and flips ISO, unless the trace is zero. */
  lemma EventNegation(r: Row, eigvals: Matrix3 -> Eigenvalues, decompose: Matrix3 -> Weights)
    requires decompose(Assemble(Negate(r))) == decompose(Assemble(r))
    ensures Event(Negate(r), eigvals, decompose).dc == Event(r, eigvals, decompose).dc
    ensures r.m0 + r.m3 + r.m5 != 0.0 ==>
      Event(Negate(r), eigvals, decompose).iso == -Event(r, eigvals, decompose).iso
    ensures r.m0 + r.m3 + r.m5 == 0.0 ==>
      Event(Negate(r), eigvals, decompose).iso == Event(r, eigvals, decompose).iso
  {
  }

  /** All events, in row order. */
  function DiamondPoints(rows: seq<Row>, eigvals: Matrix3 -> Eigenvalues, decompose: Matrix3 -> Weights): (pts: seq<Fractions>)
    ensures |pts| == |rows|
    ensures forall i :: 0 <= i < |rows| ==> pts[i] == Event(rows[i], eigvals, decompose)
    decreases |rows|
  {
    if rows == [] then []
    else DiamondPoints(rows[..|rows| - 1], eigvals, decompose) + [Event(rows[|rows| - 1], eigvals, decompose)]
  }

  /** No cross-contamination: appending rows leaves the earlier points as they
      were, and equal rows give equal points wherever they sit. */
  lemma RowsIndependent(rows: seq<Row>, more: seq<Row>, eigvals: Matrix3 -> Eigenvalues, decompose: Matrix3 -> Weights)
    ensures DiamondPoints(rows + more, eigvals, decompose)[..|rows|] == DiamondPoints(rows, eigvals, decompose)
    ensures forall i, j :: 0 <= i < |rows| && 0 <= j < |more| && rows[i] == more[j] ==>
      DiamondPoints(rows, eigvals, decompose)[i] == DiamondPoints(more, eigvals, decompose)[j]
  {
  }

  /** The loop of `plot_moment_tensor_diamond`: three zero-initialised arrays,
      entry i written from row i. */
  method PlotMomentTensorDiamond(mMatrix: seq<Row>, eigvals: Matrix3 -> Eigenvalues, decompose: Matrix3 -> Weights)
    returns (dc: seq<real>, clvd: seq<real>, iso: seq<real>)
    ensures |dc| == |mMatrix| && |clvd| == |mMatrix| && |iso| == |mMatrix|
    ensures forall i :: 0 <= i < |mMatrix| ==> dc[i] == decompose(Assemble(mMatrix[i])).dc
    ensures forall i :: 0 <= i < |mMatrix| ==>
      Fractions(dc[i], clvd[i], iso[i]) == DiamondPoints(mMatrix, eigvals, decompose)[i]
  {
    var n := |mMatrix|;
    dc, clvd, iso := seq(n, _ => 0.0), seq(n, _ => 0.0), seq(n, _ => 0.0);
    var i := 0;
    while i < n
      invariant 0 <= i <= n
      invariant |dc| == n && |clvd| == n && |iso| == n
      invariant forall j :: 0 <= j < i ==> Fractions(dc[j], clvd[j], iso[j]) == Event(mMatrix[j], eigvals, decompose)
      invariant forall j :: i <= j < n ==> dc[j] == 0.0 && clvd[j] == 0.0 && iso[j] == 0.0
    {
      var m := Assemble(mMatrix[i]);
      var res := decompose(m);
      var e := eigvals(m);
      var signClvd := if e.e1 + e.e3 - 2.0 * e.e2 > 0.0 then 1 else -1;
      var signIso := if Trace(m) > 0.0 then 1 else -1;
      dc := dc[i := res.dc];
      clvd := clvd[i := res.clvd * signClvd as real];
      iso := iso[i := res.iso * signIso as real];
      i := i + 1;
    }
  }
}
