/** Small definitions that several modules share. */
module Basics {
  /** A C++ `std::optional`, or a Python dictionary entry that may be missing. */
  datatype Option<+T> = None | Some(value: T)

  ghost function Pick<T>(s: set<T>): (x: T)
    requires s != {}
    ensures x in s
  {
    var x :| x in s; x
  }
}
