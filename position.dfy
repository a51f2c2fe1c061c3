/** Source positions: the `Cursor` and `Range` the parser attaches to tokens and expressions. */
module Position {

  /** A zero-based row and column. */
  datatype Cursor = Cursor(row: nat, col: nat)

  /** The span of a token or an expression. */
  datatype Range = Range(from: Cursor, to: Cursor)

  /** Row-major document order. */
  predicate CursorLe(a: Cursor, b: Cursor) {
    a.row < b.row || (a.row == b.row && a.col <= b.col)
  }
}
