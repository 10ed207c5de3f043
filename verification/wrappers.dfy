/** Small failure-carrying datatypes shared by the whole model. */
module Wrappers {

  /** A value that may be missing: JavaScript's `null`/`undefined` versus a present value. */
  datatype Option<+T> = None | Some(value: T)

  /** The outcome of one backend call. `Err` stands for every way the client gives up
      on a call: a thrown exception, a failed transport, a non-OK status where the
      client checks it, and a GraphQL response that carries an `errors` field. */
  datatype Call<+T> = Ok(value: T) | Err
}
