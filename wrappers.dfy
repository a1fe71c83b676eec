/** Failure-carrying results shared by every module: the script raises on
    every error it meets, so each operation that can fail returns a Result. */
module Wrappers {

  datatype Option<T> = None | Some(value: T)

  /** The exceptions the script can raise, one constructor per cause. */
  datatype Error =
    | BadMagic(expected: nat, found: nat)   // `assert _read32(data) == magic` failed
    | ShortRead                             // fewer than four bytes left for a 32-bit word
    | ShapeMismatch                         // numpy reshape: element count does not fit the shape
    | ConcatMismatch                        // numpy concatenate: column counts differ
    | MissingKey(key: string)               // dictionary lookup of an absent key
    | MissingMember(member: string)         // tar member not in the archive
    | MissingDirectory(path: string)        // os.listdir of a missing directory
    | LengthMismatch                        // `assert len(images) == len(labels)` failed
    | WrongPayload(split: string)           // a split's data has the wrong kind for its name

  datatype Result<T> = Ok(value: T) | Err(error: Error)
}
