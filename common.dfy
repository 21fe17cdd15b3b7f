/** Values shared by both ingestion adapters: JavaScript's optional values
    (`undefined` / `null`), their truthiness and how a template literal
    renders them. */
module Common {

  /** A value that may be `undefined` or `null` on the JavaScript side. */
  datatype Option<+T> = None | Some(value: T) {
    predicate IsFailure() { None? }

    function PropagateFailure<U>(): Option<U>
      requires None?
    {
      None
    }

    function Extract(): T
      requires Some?
    {
      value
    }
  }

  /** A value, or the message of the error a JavaScript function throws. */
  datatype Result<+T> = Success(value: T) | Failure(error: string)

  /** JavaScript truthiness of a possibly-undefined string: `undefined` and `""` are falsy. */
  predicate Truthy(s: Option<string>)
  {
    s.Some? && s.value != ""
  }

  /** `${s}` in a template literal: an undefined value renders as the text "undefined". */
  function Interpolate(s: Option<string>): string
  {
    match s
    case Some(v) => v
    case None => "undefined"
  }

  /** The text an optional capture contributes to the URL it was matched in. */
  function TextOf(s: Option<string>): string
  {
    match s
    case Some(v) => v
    case None => ""
  }
}
