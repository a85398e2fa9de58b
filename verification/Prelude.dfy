/** The small result types shared by every module. */
module Prelude {

  datatype Option<+T> = None | Some(value: T)

  /** Go's `(value, error)` pair: either a value or a named error. */
  datatype Result<+T> = Ok(value: T) | Err(error: Error)

  datatype Error =
    | InvalidIdLength      // MSG_INVALID_ID_LENGTH
    | DataTooLarge         // MSG_DATA_TOO_LARGE
    | IdIsRequired         // MSG_ID_IS_REQUIRED
    | InvalidSnapshot      // MSG_INVALID_SNAPSHOT
    | SnapshotCorrupted    // MSG_SNAPSHOT_CORRUPTED
    | InvalidSnapshotMagic // MSG_INVALID_SNAPSHOT_MAGIC
    | CorruptedRecord      // MSG_CORRUPTED_RECORD
    | Eof                  // io.EOF from ReadAt
    | IndexOutOfRange      // a run-time panic of the Go program
}
