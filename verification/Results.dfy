/** Results shared by the codec: what a decoder returns, throws, or leaves unread. */
module Results {

  type byte = b: int | 0 <= b < 256
  type bytes = seq<byte>

  datatype Option<+T> = None | Some(value: T)

  /** The stable codes a `DecodeError` carries. */
  datatype ErrorCode = InvalidRequest | EmptyCommit

  /** The outcome of a call that either returns a value or throws a `DecodeError`. */
  datatype Result<+T> = Ok(value: T) | Err(code: ErrorCode) {
    predicate IsFailure() { Err? }

    function PropagateFailure<U>(): Result<U>
      requires Err?
    {
      Err(code)
    }

    function Extract(): T
      requires Ok?
    {
      value
    }
  }

  /** The outcome of an encoder call: it returns, or throws a plain `Error`. */
  datatype Outcome = Pass | Refused {
    predicate IsFailure() { Refused? }

    function PropagateFailure(): Outcome { this }
  }

  /** A pure parse: the value at the front of the input and what follows it. */
  datatype Parsed<+T> = Parsed(value: T, rest: bytes) | Failed(code: ErrorCode) {
    predicate IsFailure() { Failed? }

    function PropagateFailure<U>(): Parsed<U>
      requires Failed?
    {
      Failed(code)
    }

    function Extract(): (T, bytes)
      requires Parsed?
    {
      (value, rest)
    }
  }

  /** A reader call that returned `r` and left `rest` did what the parse `p` says. */
  ghost predicate Follows<T>(p: Parsed<T>, r: Result<T>, rest: bytes) {
    match p
    case Parsed(v, k) => r == Ok(v) && rest == k
    case Failed(c) => r == Err(c)
  }
}
