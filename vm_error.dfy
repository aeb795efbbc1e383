/** The error enums of the guest boundary. Only `VMLogicError` is produced by
    the host functions modelled in `VmLogic`; `VMError` is what a whole guest
    call can fail with. */
module VmError {
  import opened Base

  datatype VMError =
    | FunctionCallError
      /** Serialized error from an external implementation. */
    | ExternalError(data: Bytes)
      /** An operation on an inconsistent state, e.g. an integer overflow
          caused by a value taken from the context. */
    | InconsistentStateError

  datatype VMLogicError =
    | HostError
    | ExternalError(data: Bytes)
    | InconsistentStateError
}
