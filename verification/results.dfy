/** Failure-carrying values shared by every module of the model.
    Each `Failure` stands for one exception the system throws; a thrown
    exception becomes an `Err` carrying it. */
module Results {

  datatype Option<+T> = None | Some(value: T)

  /** The exceptions the modelled code raises, one constructor per message. */
  datatype Failure =
    | UnknownOperation        // "Unknown operation ..." from the projection
    | IllegalClientOpType     // "Illegal client op type: ..." from the transform
    | AuthenticationFailure   // AuthenticationError("Invalid token")
    | CreateCampNotFirst      // "CREATE_CAMP must be first operation"
    | InvalidArguments        // "Invalid arguments"
    | CampNotFound            // "Camp not found"
    | LostChanges             // "Something terrible happened"
    | NoName                  // "No name"
    | CreateFailed            // "Create shouldn't fail!"
    | Catastrophic            // "Catastrophic error" in the client

  datatype Result<+T> = Ok(value: T) | Err(failure: Failure) {
    predicate IsFailure() { Err? }

    function PropagateFailure<U>(): Result<U>
      requires Err?
    {
      Err(failure)
    }

    function Extract(): T
      requires Ok?
    {
      value
    }
  }
}
