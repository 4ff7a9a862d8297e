/** Values shared by the whole model: optional values, and the exceptions the
    handlers raise, carried in a result instead of being thrown. */
module Outcomes {

  datatype Option<T> = None | Some(value: T)

  /** What an operation raised instead of returning. */
  datatype Fault =
    | HttpError(status: nat, detail: string)   // an HTTPException with its status code
    | AttributeError(attribute: string)        // an attribute read on an object that lacks it
    | RuntimeError(message: string)
    | OverflowError                            // a socket port outside 0..65535
    | FileNotFound(path: seq<string>)
    | NoReply                                  // the caller waits on the pipe for ever

  datatype Result<T> = Ok(value: T) | Err(fault: Fault)
}
