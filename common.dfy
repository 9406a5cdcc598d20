/**
 * Shared vocabulary of the restaurant back office: the exceptions the Java
 * services throw, the value/failure wrappers that replace them, and the
 * sealed StaffRole hierarchy (Manager, Waiter, Chef).
 */
module Common {

  /** The exception classes the core throws, without their messages. */
  datatype Error =
    | Security              // SecurityException from a permission chain
    | IllegalArgument       // IllegalArgumentException (missing id, bad enum name, bad table)
    | IllegalState          // IllegalStateException (domain rule violated, service shut down)
    | NumberFormat          // NumberFormatException from Integer.parseInt
    | UnsupportedOperation  // UnsupportedOperationException (Combo.copyWithPrice)
    | Wrapped(cause: Error) // RuntimeException whose cause is another failure

  datatype Option<+T> = None | Some(value: T)

  /** Either the value a Java method returns or the exception it throws. */
  datatype Result<+T> = Ok(value: T) | Err(error: Error) {
    predicate IsFailure() { Err? }
    function PropagateFailure<U>(): Result<U>
      requires Err?
    {
      Err(error)
    }
    function Extract(): T
      requires Ok?
    {
      value
    }
  }

  /** A void Java method: it returns normally or throws. */
  datatype Outcome = Pass | Fail(error: Error) {
    predicate IsFailure() { Fail? }
    function PropagateFailure<U>(): Result<U>
      requires Fail?
    {
      Err(error)
    }
  }

  /** StaffRole is sealed: Manager, Waiter and Chef are its only implementations. */
  datatype StaffRole =
    | Manager(id: string, name: string)
    | Waiter(id: string, name: string)
    | Chef(id: string, name: string)

  /** actor.getClass().getSimpleName(), recorded in every audit entry. */
  function RoleName(actor: StaffRole): string
  {
    match actor
    case Manager(_, _) => "Manager"
    case Waiter(_, _) => "Waiter"
    case Chef(_, _) => "Chef"
  }
}
