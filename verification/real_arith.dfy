/** Real-number helpers shared by both components. */
module RealArith {

  function Abs(x: real): (a: real)
    ensures a >= 0.0 && (a == x || a == -x)
  {
    if x < 0.0 then -x else x
  }
}
