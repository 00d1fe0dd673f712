/** The nullable references of the converter (a key that `FirstOrDefault`
    did not find, a reader that returned no data) as an explicit option. */
module Wrappers {
  datatype Option<+T> = None | Some(value: T)
}
