/** Java's null and checked exceptions, as the installer meets them. */
module Exceptions {

  /** A Java reference that may be null. */
  datatype Option<T> = None | Some(value: T)

  /**
   * The exceptions that reach or leave the installer. FileNotFoundException is a subclass
   * of IOException in Java; it is kept apart because getSystemRulesVersion promises it.
   */
  datatype Exc = IOException | FileNotFoundException | BundleException

  /** A Java call that either returns a value or throws. */
  datatype Result<T> = Ok(value: T) | Throw(exc: Exc)
}
