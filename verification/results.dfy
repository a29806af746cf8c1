/**
 * Optional values (Java's null) and the failures of the store's API (Java's
 * exceptions), as values.
 */
module Results {

  /** None stands for a Java null. */
  datatype Option<+T> = None | Some(value: T)

  /** The exceptions the store's API throws, one constructor per kind. */
  datatype Failure =
    | IllegalArgument    // IllegalArgumentException, from checkArgument
    | Closed             // LevelDBClosedException
    | SnapshotOwnership  // LevelDBSnapshotOwnershipException
    | IteratorNotValid   // LevelDBIteratorNotValidException
    | NullPointer        // NullPointerException, from dereferencing a null String

  /** The outcome of an API call: its value, or the exception it throws. */
  datatype Result<+T> = Ok(value: T) | Fail(failure: Failure)
}
