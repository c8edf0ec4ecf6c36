/** How one upload ends (internal/ship/ship.go). */
module Ship {
  import opened Wrappers
  import opened WireConfig

  /** What the caller should do about a failed upload. */
  datatype Kind = Retryable | Rejected | Unauthorized

  datatype Response = Response(accepted: int, config: Config)

  /** A failed upload: classified, or some other error of an uploader. */
  datatype SendError = ShipError(kind: Kind, status: int) | OtherError

  /** What happens to one request: the points at which `Send` can end. `body` is the decoded reply, if the reply
      decodes. */
  datatype Exchange =
    | EncodeFails
    | RequestFails
    | TransportFails
    | BodyUnreadable(status: int)
    | Answered(status: int, body: Option<Response>)
    | UploaderFails

  function Classify(status: int): Kind {
    if status == 401 || status == 403 then Unauthorized
    else if status == 429 then Retryable
    else if 400 <= status < 500 then Rejected
    else Retryable
  }

  function Send(x: Exchange): Result<Response, SendError> {
    match x
    case EncodeFails => Failure(ShipError(Rejected, 0))
    case RequestFails => Failure(ShipError(Retryable, 0))
    case TransportFails => Failure(ShipError(Retryable, 0))
    case BodyUnreadable(status) => Failure(ShipError(Retryable, status))
    case Answered(status, body) =>
      if status < 200 || status > 299 then Failure(ShipError(Classify(status), status))
      else if body.None? then Failure(ShipError(Retryable, status))
      else Success(body.value)
    case UploaderFails => Failure(OtherError)
  }

  /** What the agent makes of an error: anything it does not recognise is retryable. */
  function KindOf(e: SendError): Kind {
    match e
    case ShipError(kind, _) => kind
    case OtherError => Retryable
  }

  /** The three ends an upload has for the windows in it. */
  datatype Fate = Acknowledged | Dropped | Kept

  function FateOf(x: Exchange): Fate {
    match Send(x)
    case Success(_) => Acknowledged
    case Failure(e) => if KindOf(e) == Rejected then Dropped else Kept
  }

  /** The outcome table: windows are acknowledged exactly by a decodable 2xx reply, dropped exactly when they
      cannot be encoded or the answer is a 4xx other than 401, 403 and 429 (section 15.5 of RFC 9110, section 4
      of RFC 6585), and kept by everything else, a 2xx reply that does not decode included. An error carries the
      status if there was an answer, and says unauthorized exactly for 401 and 403. */
  lemma OutcomeTable(x: Exchange)
    ensures FateOf(x) == Acknowledged <==> x.Answered? && 200 <= x.status <= 299 && x.body.Some?
    ensures FateOf(x) == Dropped <==>
      x.EncodeFails? || (x.Answered? && 400 <= x.status <= 499 && x.status !in {401, 403, 429})
    ensures x.Answered? && 200 <= x.status <= 299 && x.body.None? ==> FateOf(x) == Kept
    ensures Send(x).Success? ==> x.Answered? && x.body == Some(Send(x).value)
    ensures Send(x) == Failure(OtherError) <==> x.UploaderFails?
    ensures Send(x).Failure? && Send(x).error.ShipError? ==>
      && Send(x).error.status == (if x.Answered? || x.BodyUnreadable? then x.status else 0)
      && (Send(x).error.kind == Unauthorized <==> x.Answered? && x.status in {401, 403})
      && (Send(x).error.kind == Rejected <==> FateOf(x) == Dropped)
  {
  }
}
