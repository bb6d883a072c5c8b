/** The rate source the transfer engine consults. The HTTP call and the JSON
    decoding behind it are not modelled: `respond` stands for what the remote
    service answers for each base currency, already decoded to its status and
    its `conversion_rates` map (null when the body has none). */
module ExchangeRates {
  import opened Wrappers
  import opened Currencies
  import opened Errors

  datatype HttpResponse = HttpResponse(status: int, rates: Option<map<string, real>>)

  function NotSupportedMessage(base: Currency): string {
    "Currency " + Name(base) + " not supported"
  }

  /** `getExchangeRate` on one response: any status outside 2xx fails with
      "Currency X not supported"; otherwise the decoded rates are returned. */
  function ReadQuote(base: Currency, response: HttpResponse): (r: Result<Option<map<string, real>>, Error>)
    ensures r.Success? <==> 200 <= response.status <= 299
    ensures r.Success? ==> r.value == response.rates
    ensures r.Failure? ==> r.error == NoExchangeRateBetweenCurrencies(NotSupportedMessage(base))
  {
    if 200 <= response.status <= 299 then Success(response.rates)
    else Failure(NoExchangeRateBetweenCurrencies(NotSupportedMessage(base)))
  }

  /** The injected `ExchangeRateService`. `calls` is proof bookkeeping, not
      part of the service: it records each base currency asked for, so that
      callers can state when the service is not consulted. */
  class RateSource {
    const respond: Currency -> HttpResponse
    ghost var calls: seq<Currency>

    constructor (respond: Currency -> HttpResponse)
      ensures this.respond == respond && calls == []
    {
      this.respond := respond;
      calls := [];
    }

    method GetExchangeRate(base: Currency) returns (r: Result<Option<map<string, real>>, Error>)
      modifies this`calls
      ensures r == ReadQuote(base, respond(base))
      ensures calls == old(calls) + [base]
    {
      r := ReadQuote(base, respond(base));
      calls := calls + [base];
    }
  }
}
