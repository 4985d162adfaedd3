/** The strength rating a randomness source reports: an ordered scale used by
    the mixer to rank sources, never for arithmetic. */
module Strength {

  datatype Strength = VeryLow | Low | Medium | High {

    /** Position on the scale, weakest first. */
    function Rank(): nat {
      match this
      case VeryLow => 0
      case Low => 1
      case Medium => 2
      case High => 3
    }

    /** True if this level is no stronger than `other`. */
    predicate AtMost(other: Strength) {
      Rank() <= other.Rank()
    }
  }

}
