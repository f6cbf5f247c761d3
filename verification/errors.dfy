/** Errors raised while converting BSON documents back into Rust data. */
module Errors {

  datatype ConversionError =
    | MissingKey(key: string)
    | WrongType(key: string)
    | UnexpectedValue(value: string)
    | IncorrectValue(value: string)

  /** `wrong_type_for_unknown_key`: a wrong type reported without a key name. */
  function WrongTypeForUnknownKey(): (e: ConversionError)
    ensures e.WrongType? && e.key == "<unknown>"
  {
    WrongType("<unknown>")
  }
}
