/** Small datatypes shared by the other modules. */
module Prelude {
  datatype Option<+T> = None | Some(value: T)

  /** The stable C error codes. Their numbers are ABI; see `ErrorTrees.CodeNumber`. */
  datatype Code =
    | OK
    | Unknown
    | InvalidArg
    | InvalidHandle
    | WrongHandleType
    | Panic
    | Cancelled
    | NotFound
    | IO
    | ChartLoad
    | ChartInvalid
    | Values
    | Render
    | RegistryErr
    | Repo
    | Kube
    | Storage
    | ReleaseErr
}
