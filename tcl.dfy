/**
 * What a command of the extension hands back to the Tcl interpreter: a return
 * code of TCL_OK with a result object, or TCL_ERROR with the interpreter's
 * result string as the message. Also the fixed message texts of the handlers.
 */
module Tcl {

  datatype Option<+T> = None | Some(value: T)

  datatype Result<+T, +E> = Success(value: T) | Failure(error: E)

  /**
   * The result object of a successful command. A handler that sets no result
   * returns whatever string the interpreter already holds, as a Text.
   */
  datatype Payload =
    | Text(s: string)            // Tcl_NewStringObj, or a result left in place
    | Number(n: int)             // Tcl_NewIntObj
    | List(items: seq<string>)   // Tcl_NewListObj filled by Tcl_ListObjAppendElement

  /** TCL_OK with its payload, or TCL_ERROR with the interpreter's result string. */
  datatype Reply = Ok(payload: Payload) | Err(message: string)

  const ErrorToken: string := "cannot parse token"

  const InitUsage: string := "wrong # args: should be \"init root ?loadpath? ?flags?\""
  const CloseUsage: string := "wrong # args: should be \"close token\""
  const SaveUsage: string := "wrong # args: should be \"save token\""
  const GetUsage: string := "wrong # args: should be \"get token path\""
  const SetUsage: string := "wrong # args: should be \"set token path value\""
  const SetmUsage: string := "wrong # args: should be \"setm token base sub value\""
  const InsertUsage: string := "wrong # args: should be \"insert token path label before\""
  const MvUsage: string := "wrong # args: should be \"mv token src dst\""
  const RmUsage: string := "wrong # args: should be \"rm token path\""
  const MatchUsage: string := "wrong # args: should be \"match token path\""

  const MultipleNodes: string := "multiple nodes match path"
  const NodeNotFound: string := "node not found"
  const UnknownError: string := "unknown error"
  const NoNodesMatched: string := "no nodes matched path"
  const CouldNotSet: string := "could not set value"
  const InsertFailed: string := "insert failed"
  const MoveFailed: string := "move failed"
  const InvalidPath: string := "invalid path"
  const CannotClose: string := "cannot close"
}
