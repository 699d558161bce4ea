/** How a call of the registration service or of the store ends.
    The Java code signals each failure by throwing an exception of its own
    class; here each class is one constructor. */
module Outcomes {

  datatype Status =
    | Ok                 // the call returned normally
    | AlreadyRegistered  // UserAlreadyRegisteredException
    | EmailFailed        // EmailFailedException
    | NotFound           // UserNotFoundException
}
