/** Values shared by every part of the settings model: JSON values as the
    settings files hold them, an Option type and the error kinds the core raises. */
module Common {

  datatype Option<+T> = None | Some(value: T)

  /** A decoded JSON value (JSON numbers are modelled as integers). */
  datatype Value =
    | Null
    | Bool(b: bool)
    | Int(i: int)
    | Text(s: string)
    | List(items: seq<Value>)
    | Dict(entries: map<string, Value>)

  /** Python's truth value of a decoded JSON value (`if value:`). */
  predicate Truthy(v: Value)
  {
    match v
    case Null => false
    case Bool(b) => b
    case Int(i) => i != 0
    case Text(s) => s != ""
    case List(xs) => xs != []
    case Dict(m) => m != map[]
  }

  /** The failures the core reports; all but InvalidSettingsFormat are
      GUIExceptionUserError in the source, told apart by their message. */
  datatype Error =
    | UnknownUser            // 'Invalid user name'
    | UserAlreadyExists      // 'User already exists'
    | UnknownSourceUser      // 'Could not find source user'
    | DefaultUserImmutable   // 'Cannot change default user'
    | InvalidSettingsFormat  // a settings file that does not load as the store's shape

  datatype Outcome = Pass | Fail(error: Error)

  datatype Result<+T> = Ok(value: T) | Err(error: Error)
}
