/** Failure-carrying values shared by the conditioning model.
    An exception thrown by a step of the function becomes an `Err` (or a
    `Threw` outcome of the whole run); a null reference becomes `None`. */
module Failures {
  import opened Parquet

  /** The exceptions a conditioning run can raise, one per step that may throw. */
  datatype Error =
    | RawMissing                      // the raw file does not exist (open fails with "not found")
    | OpenFailed                      // any other failure to open the raw file for reading
    | StageFailed                     // creating or filling the local staging copy failed
    | CreateFailed                    // creating the conditioned file failed
    | DecodeFailed                    // the staged bytes are not a readable Parquet file
    | ColumnMissing(field: DataField) // a row group holds no chunk for this data field
    | DuplicateKey(field: DataField)  // Dictionary.Add met a key that is already present
    | EncodeFailed                    // the Parquet writer threw while writing the new row group

  datatype Result<T> = Ok(value: T) | Err(error: Error)

  datatype Option<T> = None | Some(value: T)
}
