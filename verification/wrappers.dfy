/** The optional value of the source (`std::optional`): an absent TTL, an absent expiry, a missing key. */
module Wrappers {

  datatype Option<+T> = None | Some(value: T)

}
