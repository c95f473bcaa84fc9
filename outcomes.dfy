/** Values shared by the three versions of the pizza model: the exceptions the
    Java code lets escape, a result wrapper that carries them, and the opaque
    identifiers an order is stamped with. */
module Outcomes {

  /** The Java exceptions that the modelled operations can raise. */
  datatype Error =
    | IllegalArgument    // IllegalArgumentException, thrown by the code itself
    | IllegalState       // IllegalStateException: Collectors.toMap met a duplicate key
    | NullPointer        // NullPointerException: a lookup miss that was dereferenced
    | IndexOutOfBounds   // ArrayIndexOutOfBoundsException
    | NegativeArraySize  // NegativeArraySizeException from Arrays.copyOf
    | Arithmetic         // ArithmeticException: integer remainder by zero

  /** What a Java call returns: a value, or the exception it throws. */
  datatype Outcome<+T> = Ok(value: T) | Err(error: Error)

  /** A Java reference that may be null, where the code passes the null on
      instead of failing at once. */
  datatype Option<+T> = None | Some(value: T)

  /** `LocalDate`, as a day number; `LocalDate.now()` is a parameter. */
  datatype Date = Date(epochDay: int)

  /** `UUID`; `UUID.randomUUID()` is a parameter. */
  datatype OrderId = OrderId(bits: nat)
}
