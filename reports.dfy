/** What both backends report back to their callers. */
module Reports {

  /** The `status` of a `send_message` that went through: typed only (a dry run), or sent. */
  datatype Status = TypedNotSent | Sent
}
