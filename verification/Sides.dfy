/** The two sides of a book. */
module Sides {
  datatype Side = Buy | Sell
  {
    /** A quantity or value with the sign of this side's fills. */
    function Signed(x: int): int {
      if this == Buy then x else -x
    }
  }
}
