/** The errors the binder returns. Go builds each with `errors.New`; the model
    keeps them structured and `Message` gives the exact Go text. */
module Errors {

  datatype Error =
    | ConfigNotSet                  // empty configuration path
    | LoadFailed(cause: string)     // error returned by the TOML file loader
    | NotPointerToStruct            // target is not a pointer to a struct
    | InvalidTagLen                 // a part of the `conf` tag is empty
    | InvalidTag(part: string)      // second part of the tag is not `required`
    | MustBeSet(path: string)       // required path absent from the tree
    | Unsupported(typeName: string) // field type has no coercion rule
    | CastFailed(cause: string)     // error returned by a coercion

  function Message(e: Error): string
  {
    match e
    case ConfigNotSet => "config must be set"
    case LoadFailed(cause) => cause
    case NotPointerToStruct => "not a pointer to struct"
    case InvalidTagLen => "invalid tag len"
    case InvalidTag(part) => "invalid tag: " + part
    case MustBeSet(path) => "field " + path + " must be set"
    case Unsupported(typeName) => "unsupported type: " + typeName
    case CastFailed(cause) => cause
  }
}
