/** Failure-compatible wrappers and the error vocabulary shared by the
    money type and the two storage mappers.  A .NET `null` becomes `None`,
    a thrown exception becomes `Err`. */
module Results {

  /** A reference that may be null. */
  datatype Option<+T> = None | Some(value: T)

  /** Either a value or the exception the source would have thrown. */
  datatype Result<+T, +E> = Ok(value: T) | Err(error: E) {

    predicate IsFailure() {
      Err?
    }

    function PropagateFailure<U>(): Result<U, E>
      requires Err?
    {
      Err(error)
    }

    function Extract(): T
      requires Ok?
    {
      value
    }
  }

  /** The exceptions the modelled code raises, named after their .NET types. */
  datatype Error =
    | ArgumentNull(paramName: string)   // ArgumentNullException
    | CultureNotFound(name: string)     // CultureInfo/RegionInfo cannot resolve the name
    | CurrencyMismatch                  // InvalidOperationException("Money type mismatch.")
    | DivideByZero                      // DivideByZeroException from decimal division
    | NullReference                     // a null dereference or a null unboxed to decimal
    | InvalidCast                       // a column value of the wrong kind
    | IndexOutOfRange                   // a property index outside the property list
    | ImmutableMoney                    // Exception("Immutable!")
    | ImmutableComponent                // ArgumentException("... is an immutable object ...")
    | MissingGetMap                     // MissingMethodException: no GetMap builder supplied
}
