/** Failure-carrying values shared by every revision of the optimiser. */
module Wrappers {

  datatype Option<T> = None | Some(value: T)

  /** The exceptions the source can raise on inputs it does not reject up front. */
  datatype Error =
    | UndefinedBacklink  // reading `.months` of an unset backlink (a JavaScript TypeError)
    | EmptyStorage       // Python's `max()` of an empty list (a ValueError)
    | NoneCalled         // Python calling a missing (`None`) overage policy (a TypeError)

  datatype Result<T> = Success(value: T) | Failure(error: Error)

  /** A successful value with `tail` appended; a failure stays one. */
  function Extend<T>(o: Option<seq<T>>, tail: seq<T>): Option<seq<T>> {
    match o
    case None => None
    case Some(s) => Some(s + tail)
  }

  lemma ExtendAppend<T>(o: Option<seq<T>>, a: seq<T>, b: seq<T>)
    ensures Extend(o, []) == o
    ensures Extend(Extend(o, a), b) == Extend(o, a + b)
  {
    if o.Some? {
      assert o.value + [] == o.value;
      assert o.value + a + b == o.value + (a + b);
    }
  }

  /** `s` read back to front; models `Array.prototype.reverse` on a value. */
  function Reversed<T>(s: seq<T>): (r: seq<T>)
    ensures |r| == |s|
    ensures forall k :: 0 <= k < |s| ==> r[k] == s[|s| - 1 - k]
  {
    if s == [] then [] else [s[|s| - 1]] + Reversed(s[..|s| - 1])
  }
}
