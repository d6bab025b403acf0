/** Option and the opaque attribute blob shared by every module of the model. */
module Wrappers {

  /** A value that may be absent: stands for Java's null. */
  datatype Option<+T> = None | Some(value: T) {
    function GetOr(default: T): T {
      match this
      case Some(v) => v
      case None => default
    }
  }

  /** The outcome of a call to the remote store: it completed with a value, or it threw. */
  datatype Outcome<+T> = Done(value: T) | Failed

  /**
   * An attribute value. The model does not look inside values: a serialized
   * `Data` blob and the deserialized object it stands for are the same Blob.
   */
  datatype Blob = Blob(bytes: seq<bv8>)
}
