/** Failures of the container-format decoders and of the patcher.

    Every exception the Python code can raise on a malformed buffer is one
    variant here, carrying the byte offset it concerns, so that a failed
    decode is a value the caller can inspect instead of an abort.
 */
module Errors {

  datatype Error =
    | IndexPastEnd(pos: int)                  // IndexError: a single byte read at or past the end
    | ShortRead(pos: int)                     // struct.error: fewer bytes left than the format needs
    | UnexpectedEof                           // the token stream ended while a token was expected
    | TokenMismatch(cursor: int)              // the next token has the wrong key or kind
    | KeyTextMismatch(pos: int)               // the anchor does not hold the expected key text
    | UnknownContainer(pos: int, marker: int) // the byte after a compound key is no known container
    | UnknownMarker(pos: int, marker: int)    // a scalar field has a marker that is no integer
    | BadIntTag(pos: int, tag: int)           // an integer tag none of the integer rules accepts
    | BadKeyLength(pos: int, len: int)        // a key header declares the wrong length
    | WrongKey(pos: int)                      // a key header is followed by the wrong key text
    | MissingSentinel(pos: int)               // bytes.index found no sentinel (ValueError)
    | RowCountMismatch(declared: int, got: int) // an array yielded another number of rows than declared
    | InvalidOffsets                          // a section offset lies outside the buffer
    | ValueOutOfRange(value: int)             // int.to_bytes(4, unsigned) overflow
    | SlotPastEnd(pos: int)                   // a 4-byte slot to patch runs past the end of the buffer
    | FieldMismatch                           // a record constructor got other keyword fields than it has

  /** The result of an operation that may raise. */
  datatype Result<+T> = Ok(value: T) | Err(error: Error) {
    predicate IsFailure() {
      Err?
    }

    function PropagateFailure<U>(): Result<U>
      requires Err?
    {
      Err(error)
    }

    function Extract(): T
      requires Ok?
    {
      value
    }
  }

  datatype Option<+T> = None | Some(value: T)

  /** A loop's items so far put in front of what the rest of the loop returns. */
  function Prepend<T>(done: seq<T>, rest: Result<seq<T>>): (r: Result<seq<T>>)
    ensures r.Ok? <==> rest.Ok?
    ensures r.Ok? ==> r.value == done + rest.value
    ensures r.Err? ==> r.error == rest.error
  {
    match rest
    case Ok(rs) => Ok(done + rs)
    case Err(e) => Err(e)
  }

  lemma PrependNothing<T>(rest: Result<seq<T>>)
    ensures Prepend([], rest) == rest
  {
    if rest.Ok? {
      assert [] + rest.value == rest.value;
    }
  }

  /** One more item moved from the rest of a loop to the items so far. */
  lemma PrependStep<T>(done: seq<T>, c: T, rest: Result<seq<T>>)
    ensures Prepend(done, Prepend([c], rest)) == Prepend(done + [c], rest)
  {
    if rest.Ok? {
      assert done + ([c] + rest.value) == done + [c] + rest.value;
    }
  }
}
