/** The application's exceptions, each carrying its message. */
module Errors {

  datatype Error =
    | ImpossibleToRealiseTransaction(message: string)
    | NoExchangeRateBetweenCurrencies(message: string)
    | EntityNotFound(message: string)
    | NoSuchElement(message: string)
    | NotPossibleCreateAccount(message: string)
    | NotPossibleCreateBankAccount(message: string)
    | CurrencyDoesNotExist(message: string)
    | EmailTaken(message: string)
}
