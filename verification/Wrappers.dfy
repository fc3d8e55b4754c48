// The two result shapes the other modules share.
module Wrappers {

  datatype Option<+T> = None | Some(value: T)

  // A Python call that either returns or raises.
  datatype Outcome<+T> = Returned(value: T) | Raised

}
