/** Small result types shared by the whole model. */
module Wrappers {

  /** A value that may be missing (a JavaScript `undefined` or `null`). */
  datatype Option<+T> = None | Some(value: T)

  /**
   * What the caller of an asynchronous operation receives through its callback:
   * - Ok: the callback is called without an error (and with the value, if any);
   * - Failed: the callback is called with the store's error;
   * - NoReply: the callback is never called (a rejected promise nobody handles,
   *   a TypeError thrown inside a store callback, or an unimplemented branch).
   */
  datatype Reply<+T> = Ok(value: T) | Failed | NoReply
}
