/** Values shared by every part of the SEODesk model. */
module Common {
  /** A nullable value: `T?` in the C# source. */
  datatype Option<T> = None | Some(value: T)

  /** The outcome of a handler. `Success` and `Failure` are the source's `Result<T>`;
      `Thrown` stands for an exception that leaves the handler uncaught (the web host
      turns it into an internal-server-error response). */
  datatype Result<T> = Success(value: T) | Failure(error: string) | Thrown(error: string)

  /** A `Guid`. The all-zero value `Guid.Empty` is 0. */
  type Guid = nat
  const EmptyGuid: Guid := 0

  /** A calendar day (`DateOnly`, or a `DateTime` at midnight), as a day number. */
  type Date = int

  /** An instant (`DateTime.UtcNow`), as a tick count supplied by the caller. */
  type Timestamp = int

  /** `string.IsNullOrEmpty` on a nullable string. */
  predicate IsNullOrEmpty(s: Option<string>) {
    s.None? || s.value == ""
  }

  /** The `??` operator. */
  function OrElse<T>(o: Option<T>, fallback: T): (r: T)
    ensures o.Some? ==> r == o.value
    ensures o.None? ==> r == fallback
  {
    if o.Some? then o.value else fallback
  }
}
