/** The one fact about products that several files need by name. */
module Arithmetic {

  lemma Scaled(k: int, x: int, y: int)
    requires 0 <= k && x <= y
    ensures k * x <= k * y
  {
  }
}
