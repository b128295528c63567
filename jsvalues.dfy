/** The values a field of a parsed JSON request body can take, as far as the service
    distinguishes them. */
module JsValues {
  /** `Missing` is undefined or null; `Other` is any non-string value (number, boolean,
      object, array) together with its JavaScript truthiness. */
  datatype Value = Missing | Str(s: string) | Other(truthy: bool)

  /** `!!v` */
  predicate Truthy(v: Value) {
    match v
    case Missing => false
    case Str(s) => s != ""
    case Other(t) => t
  }
}
