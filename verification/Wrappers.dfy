/** Option and Result, used where the source returns `Option` or a `Result` with a `ProtocolError`. */
module Wrappers {
  datatype Option<+T> = None | Some(value: T)

  /** The variants of `ProtocolError` the modelled code can return; messages are dropped. `Panic` is not
      one of them: it stands for a call that unwinds instead of returning. */
  datatype Error =
    | ConnectionFailed
    | ConnectionClosed
    | Timeout
    | InvalidMessage
    | Protocol
    | Encoding
    | ResourceExhausted
    | Panic

  datatype Result<+T> = Ok(value: T) | Err(error: Error)
}
