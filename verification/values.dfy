/** Runtime values of the evaluator. Numbers are exact reals here. */
module Values {
  datatype Value = Number(n: real) | Bool(b: bool) | Nil
}
