/** Values shared by the wallet-provisioning and the transaction-inspection
    models: the error an RPC call returns, and the failure-compatible
    wrappers that stand for Rust's `Option` and `Result`. A `Result` works
    with Dafny's `:-`, which plays the part of Rust's `?` operator: the first
    `Err` ends the enclosing method and is passed on unchanged. */
module Rpc {

  datatype Option<+T> = None | Some(value: T)

  datatype Result<+T, +E> = Ok(value: T) | Err(error: E) {

    predicate IsFailure() {
      Err?
    }

    function PropagateFailure<U>(): Result<U, E>
      requires Err?
    {
      Err(error)
    }

    function Extract(): T
      requires Ok?
    {
      value
    }
  }

  /** An error reported by the RPC client library (a refused request, a
      transport problem, a client that cannot be built). Only its identity
      matters to the code modelled here. */
  datatype RpcError = RpcError(message: string)
}
