/** The coarse errors of the crate, and its `Result`. */
module LabErrors {
  datatype LabError =
    | MissingSession
    | SessionAlreadyExists
    | ExpectedPreKey
    | PeerVerificationFailed
    | CryptoFailed
    | Encoding
    | InvalidPayload
    | WrongConversation
    | MessageIdMismatch
    | DuplicateMessage
    | Unauthorized
    | RequestExpired
    | InvalidExpiry
    | MailboxNotFound
    | MailboxConflict
    | MessageConflict
    | MessageGone
    | MessageNotFound
    | Storage

  datatype Result<+T> = Ok(value: T) | Err(error: LabError)
}
