/** The few JavaScript runtime notions the extension's logic depends on:
    values that may be `undefined`, exceptions, and how a template literal
    renders a missing value. */
module Js {

  /** A value that may be `undefined` (or `null`: the code never tells them apart). */
  datatype Option<+T> = None | Some(value: T)

  /** What a `throw` carries: a `TypeError` the runtime raises on a property
      access through `undefined`, or an `Error` the code raises with a message. */
  datatype Fault = TypeError | Error(message: string)

  /** The outcome of a call that may throw. */
  datatype Result<+T> = Ok(value: T) | Throw(fault: Fault)

  /** The text `${x}` yields inside a template literal: `undefined` becomes the
      nine letters "undefined". */
  function TemplateText(x: Option<string>): (s: string)
    ensures x.Some? ==> s == x.value
    ensures x.None? ==> s == "undefined"
  {
    match x
    case Some(s) => s
    case None => "undefined"
  }

  function Max(a: int, b: int): (m: int)
  {
    if a < b then b else a
  }
}
