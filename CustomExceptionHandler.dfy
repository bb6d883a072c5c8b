/** The controller advice (exceptionHandlers/CustomExceptionHandler.java): every
    exception the services throw becomes an error body holding the message,
    sent with a status that depends only on the kind of exception. */
module CustomExceptionHandler {
  import opened Errors

  const NotFound := 404
  const BadRequest := 400
  const Forbidden := 403

  datatype ErrorDTO = ErrorDTO(error: string)

  datatype ResponseEntity = ResponseEntity(body: ErrorDTO, status: int)

  /** The three handler methods; `Handle` picks the one registered for the
      exception's class. */
  function HandleNotFound(e: Error): (r: ResponseEntity)
    ensures r.status == NotFound && r.body.error == e.message
  {
    ResponseEntity(ErrorDTO(e.message), NotFound)
  }

  function HandleBadRequest(e: Error): (r: ResponseEntity)
    ensures r.status == BadRequest && r.body.error == e.message
  {
    ResponseEntity(ErrorDTO(e.message), BadRequest)
  }

  function HandleEmailTaken(e: Error): (r: ResponseEntity)
    ensures r.status == Forbidden && r.body.error == e.message
  {
    ResponseEntity(ErrorDTO(e.message), Forbidden)
  }

  /** Missing resources (an entity, an element, an exchange rate) are 404;
      rejected requests are 400; a taken e-mail is 403. The body carries the
      exception's message verbatim. */
  function Handle(e: Error): (r: ResponseEntity)
    ensures r.body.error == e.message
    ensures r.status == NotFound <==>
              e.NoExchangeRateBetweenCurrencies? || e.NoSuchElement? || e.EntityNotFound?
    ensures r.status == BadRequest <==>
              e.ImpossibleToRealiseTransaction? || e.NotPossibleCreateAccount? ||
              e.NotPossibleCreateBankAccount? || e.CurrencyDoesNotExist?
    ensures r.status == Forbidden <==> e.EmailTaken?
  {
    match e
    case NoExchangeRateBetweenCurrencies(_) => HandleNotFound(e)
    case NoSuchElement(_) => HandleNotFound(e)
    case EntityNotFound(_) => HandleNotFound(e)
    case ImpossibleToRealiseTransaction(_) => HandleBadRequest(e)
    case NotPossibleCreateAccount(_) => HandleBadRequest(e)
    case NotPossibleCreateBankAccount(_) => HandleBadRequest(e)
    case CurrencyDoesNotExist(_) => HandleBadRequest(e)
    case EmailTaken(_) => HandleEmailTaken(e)
  }
}
