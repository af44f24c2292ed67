/** Go's built-in `error` values as the handler and `retry` see them. */
module GoErrors {

  /** A Go `error`: `nil`, or a non-nil error whose `Error()` method returns `message`. */
  datatype Error = Nil | Fail(message: string)
}
