/** Values exchanged between the calculator's display controller and its
    arithmetic engine. */
module Values {

  /** A Java `double` as the engine produces it: a number, or the
      not-a-number sentinel that signals division by zero and the square
      root of a negative value. Numbers are modelled as mathematical reals. */
  datatype Num = Finite(value: real) | NaN

  /** The outcome of a partial operation, such as parsing a number. */
  datatype Option<T> = None | Some(value: T)
}
