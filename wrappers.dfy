/** The absent-or-present value used wherever the Java code returns null or throws
    a parse exception that its caller catches. */
module Wrappers {

  datatype Option<+T> = None | Some(value: T)

}
