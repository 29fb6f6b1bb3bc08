/**
 * Java-level building blocks shared by the cache writer and the cache key:
 * bytes, nullable references, exceptions and the conversion of a `Set` into an array.
 */
module Base {

  /** A Java `byte`, kept as its unsigned value. */
  newtype byte = b: int | 0 <= b < 256

  /** A nullable reference: `None` is Java's `null`. */
  datatype Option<+T> = None | Some(value: T)

  /** A call that either returns normally or throws. */
  datatype Result<+T, +E> = Success(value: T) | Failure(error: E)

  /** The exceptions the modelled code can raise. */
  datatype Exception =
    | IllegalArgument(message: string)  // thrown by Assert.notNull
    | NullPointer                       // a method called on a null reference
    | DataAccess                        // a failure reported by the store connection
    | NegativeArraySize                 // an array created with a negative length

  /** `list` holds every element of `s` exactly once, in some order. */
  ghost predicate IsListing<T(!new)>(list: seq<T>, s: set<T>)
  {
    && |list| == |s|
    && (forall x :: x in s <==> x in list)
    && (forall i, j :: 0 <= i < j < |list| ==> list[i] != list[j])
  }

  /**
   * Lists the elements of a set, in an order the model leaves open: the
   * `Set.toArray` of the non-locking clean and the reply of the store's KEYS command.
   */
  method Enumerate<T(!new)>(s: set<T>) returns (list: seq<T>)
    ensures IsListing(list, s)
  {
    list := [];
    var rest := s;
    while rest != {}
      invariant rest <= s
      invariant forall x :: x in s <==> x in list || x in rest
      invariant forall x :: x in list ==> x !in rest
      invariant |list| + |rest| == |s|
      invariant forall i, j :: 0 <= i < j < |list| ==> list[i] != list[j]
      decreases rest
    {
      var x :| x in rest;
      list := list + [x];
      rest := rest - {x};
    }
  }
}
