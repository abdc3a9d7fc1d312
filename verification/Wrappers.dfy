/** The wrapper types used throughout the model. */
module Wrappers {
  datatype Option<+T> = None | Some(value: T) {
    function GetOrElse(default: T): T {
      if Some? then value else default
    }
  }

  /**
   Guards the body of a predicate, `forall key :: Opened(key) ==> ...`: the verifier looks into such a predicate only
   where `Opened` is mentioned, and otherwise treats it as a name.
   */
  predicate Opened(key: bool) {
    true
  }

  /** Counts a condition as zero or one, so that booleans can be summed. */
  function AsNat(b: bool): nat {
    if b then 1 else 0
  }
}
