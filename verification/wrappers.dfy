/** Failure-carrying datatypes used throughout the model.

    A Go `error` is modelled by its message: `None` stands for `nil`, and a
    function that returns `(T, error)` is modelled as `Result<T>`. A call to
    `log.Fatalf` ends the process; it is modelled as an `Err` result whose
    message is the fatal message.
 */
module Wrappers {

  datatype Option<+T> = None | Some(value: T) {
    predicate IsFailure() {
      None?
    }

    function PropagateFailure<U>(): Option<U>
      requires None?
    {
      None
    }

    function Extract(): T
      requires Some?
    {
      value
    }

    function GetOr(default: T): T {
      match this
      case Some(v) => v
      case None => default
    }
  }

  datatype Result<+T> = Ok(value: T) | Err(error: string) {
    predicate IsFailure() {
      Err?
    }

    function PropagateFailure<U>(): Result<U>
      requires Err?
    {
      Err(error)
    }

    function Extract(): T
      requires Ok?
    {
      value
    }

    /** The `error` half of a Go `(T, error)` pair. */
    function ErrorOf(): Option<string> {
      match this
      case Ok(_) => None
      case Err(e) => Some(e)
    }
  }

  /** A byte of a Go `[]byte`. */
  newtype byte = x: int | 0 <= x < 256

  /** Go's `string(b)`: one character per byte. */
  function CharsOf(b: seq<byte>): (r: string)
    ensures |r| == |b| && forall i :: 0 <= i < |b| ==> r[i] as int == b[i] as int
  {
    seq(|b|, i requires 0 <= i < |b| => b[i] as int as char)
  }

  /** Go's `[]byte(s)` for a string of byte-sized characters; a wider
      character keeps its low eight bits. */
  function BytesOf(s: string): (r: seq<byte>)
    ensures |r| == |s| && forall i :: 0 <= i < |s| ==> r[i] as int == s[i] as int % 256
  {
    seq(|s|, i requires 0 <= i < |s| => (s[i] as int % 256) as byte)
  }
}
