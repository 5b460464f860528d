/** The slice of Rocket's HTTP vocabulary the handlers answer with. */
module Http {

  /** The status codes of the refusals the handlers and request guards give.
      A successful answer (200, or 201 Created) is the `Success` side of a
      `Result` and carries no status here. */
  datatype Status = BadRequest | NotFound | NotImplemented

  /** Rocket's `Custom(status, body)` responder. */
  datatype Custom<+T> = Custom(status: Status, body: T)
}
