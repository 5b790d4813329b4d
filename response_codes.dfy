/** The response codes the controllers hand back to the command listener. */
module ResponseCodes {
  datatype ResponseCode =
    | SoftapStatusResult
    | CommandSyntaxError
    | CommandParameterError
    | ServiceStartFailed
    | OperationFailed
}
