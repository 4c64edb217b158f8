/** Option and Result, and the errors the rewriter reports. */
module Wrappers {

  datatype Option<T> = None | Some(value: T)

  datatype Result<T, E> = Ok(value: T) | Err(error: E)

  /** The ways a rewrite stops early: a `// gofail:` header that does not read
      `var NAME TYPE` (an error the source returns), and a slice or index out
      of range while reading generated code back (a panic in the source). */
  datatype RewriteError =
    | MalformedHeader(line: string)
    | IndexOutOfRange(line: string)
}
