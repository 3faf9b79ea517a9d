/** Outcomes: the error kinds the program distinguishes, without their message texts. */
module Results {

  datatype Option<+T> = None | Some(value: T)

  datatype Limit =
    | RecordTooLarge
    | PlaintextLength
    | ChunkCounter
    | RecordCounter
    | ChunkSizeRange
    | RecordLength
    | LegacySize
    | KdfCost

  datatype IoKind = NotFound | AlreadyExists | OtherIo

  /** Why two files would have met under one name. */
  datatype Collision =
    | SameFile
    | SpecifiedTwice
    | NoUniqueName
    | InputsMapTogether
    | PendingInput
    | AliasOfInput
    | AlreadyReserved

  datatype Error =
    | FileNotFound
    | InvalidExtension
    | EncryptionFailed
    | DecryptionFailed
    | InvalidFileFormat
    | IoError(kind: IoKind)
    | SecureDeletionFailed
    | NotADirectory
    | UnsafePath
    | OutputCollision(reason: Collision)
    | ResourceLimit(limit: Limit)
    | Cancelled
    | BatchIncomplete(failed: nat, skipped: nat)

  datatype Result<+T> = Ok(value: T) | Err(error: Error)
}
