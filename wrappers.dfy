/** Nullable references and java.util.Optional values, as a value type. */
module Wrappers {

  /** `None` stands for a Java `null` reference or an empty Optional. */
  datatype Option<+T> = None | Some(value: T)

  /** Java string concatenation renders a null reference as the text "null". */
  function Show(s: Option<string>): string
  {
    match s
    case None => "null"
    case Some(v) => v
  }
}
