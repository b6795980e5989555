/** Option and Result for the values Ruby represents with nil and with exceptions. */
module Wrappers {

  datatype Option<+T> = None | Some(value: T)

  /** What the Ruby code raises. Each constructor names the runtime error it stands for. */
  datatype Fault =
    | NilAccess(what: string)          // NoMethodError on nil (`nil["data"]`, `nil + ...`)
    | IncomparableVersion              // `Integer > nil` / `nil > Integer` in is_major_bump
    | AutofixError(message: string)    // the v2 autofixer's own error class
    | MalformedTable                   // `nil.strip` / `nil + ...` while reading the audit table
    | IncomparableStrings              // `nil <=> String` while sorting `Dependency of`
    | NilConversion(what: string)      // TypeError from `String + nil`

  datatype Result<+T> = Ok(value: T) | Err(fault: Fault)
}
