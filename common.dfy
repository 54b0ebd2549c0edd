/** Shared vocabulary of the model: optional values, results that carry one of
    the Python exceptions the core raises, the exception messages the core
    spells out, and Python's rules for integer indexes and `in` on strings. */
module Common {

  datatype Option<+T> = None | Some(value: T) {
    /** `x if x is not None else default` */
    function GetOr(default: T): T {
      if Some? then value else default
    }
  }

  /** The exceptions that escape from the core, with the message where the
      source or the Python runtime fixes one. */
  datatype Error =
    | ValueError(msg: string)
    | TypeError(msg: string)
    | IndexError
    | KeyError(key: string)
    | AttributeError(name: string)
    | NameError(name: string)
    | StopIteration
    | CsvError(msg: string)
    | FileNotFound(path: string)
      // str.format rejected a template (KeyError, IndexError or ValueError in Python)
    | FormatError

  /** An operation that returns a value or raises. */
  datatype Result<+T> = Ok(value: T) | Err(error: Error) {
    predicate IsFailure() {
      Err?
    }

    function PropagateFailure<U>(): Result<U>
      requires Err?
    {
      Err(error)
    }

    function Extract(): T
      requires Ok?
    {
      value
    }
  }

  // Messages the source raises with.
  const ExactlyOneRowMsg := "Supply exactly one of text_row or native_row as an argument"
  const NoHeaderMsg := "Unable to perform dict-like access without specifying a header"
  const NotWriteableMsg := "Comma object mode is not writeable"

  // Messages of the Python runtime for the failures the core runs into.
  const ClosedFileMsg := "I/O operation on closed file."
  const NotSubscriptableMsg := "'NoneType' object is not subscriptable"
  const NotIteratorMsg := "'NoneType' object is not an iterator"
  const TupleAssignMsg := "'tuple' object does not support item assignment"
  // `__getitem__` and `__setitem__` raise a bare TypeError for other keys
  const BadKeyMsg := ""
  const ZeroStepMsg := "slice step cannot be zero"
  const UnpackMsg := "not enough values to unpack (expected 2, got 0)"

  /** How Python reads the integer index `i` into a sequence of length `n`: a
      negative index counts from the end, anything else out of range raises. */
  function PyIndex(i: int, n: nat): (r: Option<nat>)
    ensures r.Some? <==> -(n as int) <= i < n
    ensures r.Some? ==> r.value < n && r.value % n == i % n
  {
    if 0 <= i < n then Some(i)
    else if -(n as int) <= i < 0 then Some(i + n)
    else None
  }

  /** Python's `t in s` for two strings: `t` occurs in `s` at some position. */
  predicate HasSubstring(s: string, t: string)
    decreases |s|
  {
    (|t| <= |s| && s[..|t|] == t) || (|s| > 0 && HasSubstring(s[1..], t))
  }
}
