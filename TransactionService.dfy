/** The transfer engine (service/TransactionService.java). `Validate`, `Price`
    and `Settle` specify, over the bank-account table as values, what one call
    of `createNewTransaction` decides and writes; `CreateNewTransaction` is the
    imperative pipeline, proved to do exactly that; the lemmas state what the
    pipeline promises about every request. */
module TransactionService {
  import opened Wrappers
  import opened Collections
  import opened Currencies
  import opened Strings
  import opened Errors
  import opened Model
  import opened Repositories
  import opened ExchangeRates
  import opened TransactionMapper

  datatype CreateNewTransactionRequest = CreateNewTransactionRequest(from: int, to: int, amount: real)

  const SameAccountMessage := "Impossible to send money to same account"
  const NotEnoughBalanceMessage := "There is no enough balance in the account to make the transaction"

  function AccountMissingMessage(id: int): string {
    "Account with id " + IntToString(id) + " does not exist"
  }

  function NoRateMessage(from: Currency, to: Currency): string {
    "Exchange rate between " + Name(from) + " and " + Name(to) + " not found"
  }

  function TransactionMissingMessage(id: int): string {
    "Transaction with id " + IntToString(id) + " does not exist"
  }

  /** The not-found message names one id and no other. */
  lemma AccountMissingMessageInjective(a: int, b: int)
    ensures AccountMissingMessage(a) == AccountMissingMessage(b) ==> a == b
  {
    var prefix, suffix := "Account with id ", " does not exist";
    var sa, sb := IntToString(a), IntToString(b);
    if AccountMissingMessage(a) == AccountMissingMessage(b) {
      var m := AccountMissingMessage(a);
      assert |sa| == |sb|;
      assert sa == m[|prefix|..|prefix| + |sa|];
      assert sb == m[|prefix|..|prefix| + |sb|];
      IntToStringInjective(a, b);
    }
  }

  /** The checks before pricing, in `createNewTransaction`'s order; the first that fails
      names the error. Both not-found exits name the SOURCE id. */
  function Validate(view: map<int, BankAccountRow>, req: CreateNewTransactionRequest): (r: Option<Error>)
    ensures r.None? <==> req.from != req.to && IsLive(view, req.from) && IsLive(view, req.to)
                         && view[req.from].balance - req.amount >= 0.0
  {
    if req.from == req.to then Some(ImpossibleToRealiseTransaction(SameAccountMessage))
    else if !IsLive(view, req.from) then Some(EntityNotFound(AccountMissingMessage(req.from)))
    else if !IsLive(view, req.to) then Some(EntityNotFound(AccountMissingMessage(req.from)))
    else if view[req.from].balance - req.amount < 0.0 then
      Some(ImpossibleToRealiseTransaction(NotEnoughBalanceMessage))
    else None
  }

  /** Reading the destination's rate out of a quote: a failed lookup passes its
      error on; an absent or empty map, or one without the destination's code,
      fails with "Exchange rate between FROM and TO not found". The rate is
      never defaulted: it is the quoted value for the destination's code. */
  function RateFromQuote(from: Currency, to: Currency, quote: Result<Option<map<string, real>>, Error>)
    : (r: Result<real, Error>)
    ensures r.Success? <==> quote.Success? && quote.value.Some? && Name(to) in quote.value.value
    ensures r.Success? ==> r.value == quote.value.value[Name(to)]
    ensures r.Failure? ==>
              r.error == if quote.Failure? then quote.error
                         else NoExchangeRateBetweenCurrencies(NoRateMessage(from, to))
  {
    if quote.Failure? then Failure(quote.error)
    else if quote.value.None? || |quote.value.value| == 0 then
      Failure(NoExchangeRateBetweenCurrencies(NoRateMessage(from, to)))
    else if Name(to) !in quote.value.value then
      Failure(NoExchangeRateBetweenCurrencies(NoRateMessage(from, to)))
    else Success(quote.value.value[Name(to)])
  }

  /** The engine asks the rate source for a quote exactly when the request
      passes every check and the two currencies differ. */
  predicate ConsultsRateSource(view: map<int, BankAccountRow>, req: CreateNewTransactionRequest) {
    Validate(view, req).None? && view[req.from].currency != view[req.to].currency
  }

  /** What a call decides: the applied rate, or the error that ends it. A
      rate is only ever given to a request that passes every check, and it is
      never defaulted: it is 1 between accounts of one currency, and otherwise
      the destination's entry in a successful quote for the source currency. */
  function Price(view: map<int, BankAccountRow>, req: CreateNewTransactionRequest,
                 respond: Currency -> HttpResponse): (r: Result<real, Error>)
    ensures r.Success? ==> Validate(view, req).None?
    ensures r.Success? && view[req.from].currency == view[req.to].currency ==> r.value == 1.0
    ensures r.Success? && view[req.from].currency != view[req.to].currency ==>
              var response := respond(view[req.from].currency);
              && 200 <= response.status <= 299 && response.rates.Some?
              && Name(view[req.to].currency) in response.rates.value
              && r.value == response.rates.value[Name(view[req.to].currency)]
  {
    var check := Validate(view, req);
    if check.Some? then Failure(check.value)
    else
      var from, to := view[req.from].currency, view[req.to].currency;
      if from == to then Success(1.0)
      else RateFromQuote(from, to, ReadQuote(from, respond(from)))
  }

  /** What the destination is credited: the amount converted at the rate.
      At rate 1 it is the amount itself; a non-negative amount at a
      non-negative rate credits a non-negative value. */
  function ValueToTransfer(amount: real, rate: real): (v: real)
    ensures rate == 1.0 ==> v == amount
    ensures amount >= 0.0 && rate >= 0.0 ==> v >= 0.0
  {
    amount * rate
  }

  /** The two balance updates of a committed transfer: the table keeps its
      ids, the source is debited the amount and the destination credited the
      value to transfer (`SettleMovesAmount`: nothing else changes). */
  function Settle(view: map<int, BankAccountRow>, req: CreateNewTransactionRequest, rate: real)
    : (r: map<int, BankAccountRow>)
    requires req.from in view && req.to in view
    ensures r.Keys == view.Keys
    ensures req.from != req.to ==> r[req.from].balance == view[req.from].balance - req.amount
    ensures r[req.to].balance == view[req.to].balance + ValueToTransfer(req.amount, rate)
  {
    var src := view[req.from];
    var dst := view[req.to];
    view[req.from := src.(balance := src.balance - req.amount)]
        [req.to := dst.(balance := dst.balance + ValueToTransfer(req.amount, rate))]
  }

  // ---------------------------------------------------------------------------
  // What every request gets

  /** A self-transfer is refused first: whatever the table holds, the balance
      and the rate source. */
  lemma SelfTransferRefused(view: map<int, BankAccountRow>, req: CreateNewTransactionRequest,
                            respond: Currency -> HttpResponse)
    requires req.from == req.to
    ensures Price(view, req, respond) == Failure(ImpossibleToRealiseTransaction(SameAccountMessage))
  {
  }

  /** A missing or soft-deleted source, and then a missing or soft-deleted
      destination, is not found. Both messages name the source id, so when only
      the destination is missing the message does not name the missing id. */
  lemma MissingAccountRefused(view: map<int, BankAccountRow>, req: CreateNewTransactionRequest,
                              respond: Currency -> HttpResponse)
    requires req.from != req.to && !(IsLive(view, req.from) && IsLive(view, req.to))
    ensures Price(view, req, respond) == Failure(EntityNotFound(AccountMissingMessage(req.from)))
    ensures IsLive(view, req.from) ==>
              Price(view, req, respond).error.message != AccountMissingMessage(req.to)
  {
    AccountMissingMessageInjective(req.from, req.to);
  }

  /** Between two distinct live accounts, the balance check refuses exactly the
      requests that would leave the source below zero; ending at zero passes. */
  lemma BalanceCheckExact(view: map<int, BankAccountRow>, req: CreateNewTransactionRequest,
                          respond: Currency -> HttpResponse)
    requires req.from != req.to && IsLive(view, req.from) && IsLive(view, req.to)
    ensures Price(view, req, respond) == Failure(ImpossibleToRealiseTransaction(NotEnoughBalanceMessage))
            <==> view[req.from].balance - req.amount < 0.0
  {
  }

  /** Two accounts in one currency: the rate is exactly 1 and no quote is asked for. */
  lemma SameCurrencyRateIsOne(view: map<int, BankAccountRow>, req: CreateNewTransactionRequest,
                              respond: Currency -> HttpResponse)
    requires Validate(view, req).None? && view[req.from].currency == view[req.to].currency
    ensures Price(view, req, respond) == Success(1.0)
    ensures !ConsultsRateSource(view, req)
  {
  }

  /** Two currencies: the quote asked for is the source currency's. A failed
      lookup is "Currency X not supported"; a quote without rates, or without
      the destination's code, is "Exchange rate between FROM and TO not found";
      otherwise the rate is the quoted value, never a default. */
  lemma CrossCurrencyPricing(view: map<int, BankAccountRow>, req: CreateNewTransactionRequest,
                             respond: Currency -> HttpResponse)
    requires ConsultsRateSource(view, req)
    ensures var from, to := view[req.from].currency, view[req.to].currency;
            var response := respond(from);
            var price := Price(view, req, respond);
            && (!(200 <= response.status <= 299) ==>
                  price == Failure(NoExchangeRateBetweenCurrencies(NotSupportedMessage(from))))
            && (200 <= response.status <= 299 &&
                (response.rates.None? || Name(to) !in response.rates.value) ==>
                  price == Failure(NoExchangeRateBetweenCurrencies(NoRateMessage(from, to))))
            && (200 <= response.status <= 299 &&
                response.rates.Some? && Name(to) in response.rates.value ==>
                  price == Success(response.rates.value[Name(to)]))
  {
  }

  /** The rate source matters only through the source currency's quote, and
      not at all unless the request passes every check between accounts of
      different currencies: two sources that agree on that one quote give the
      same outcome. */
  lemma PriceReadsOnlySourceQuote(view: map<int, BankAccountRow>, req: CreateNewTransactionRequest,
                                  respond1: Currency -> HttpResponse, respond2: Currency -> HttpResponse)
    requires ConsultsRateSource(view, req) ==>
               respond1(view[req.from].currency) == respond2(view[req.from].currency)
    ensures Price(view, req, respond1) == Price(view, req, respond2)
  {
  }

  /** One rate application: the source loses the amount, the destination gains
      the amount times the rate, and nothing else in the table changes. */
  lemma SettleMovesAmount(view: map<int, BankAccountRow>, req: CreateNewTransactionRequest, rate: real)
    requires req.from != req.to && req.from in view && req.to in view
    ensures var after := Settle(view, req, rate);
            && after.Keys == view.Keys
            && after[req.from].balance + req.amount == view[req.from].balance
            && after[req.to].balance == view[req.to].balance + req.amount * rate
            && after[req.to].balance - view[req.to].balance
               == (view[req.from].balance - after[req.from].balance) * rate
            && (forall k :: k in view && k != req.from && k != req.to ==> after[k] == view[k])
            && (forall k :: k in view ==> after[k] == view[k].(balance := after[k].balance))
  {
  }

  /** The sum of all balances in the table, soft-deleted accounts included. */
  ghost function Total(view: map<int, BankAccountRow>): real
    decreases view.Keys
  {
    if view.Keys == {} then 0.0
    else
      NonEmptyHasMember(view.Keys);
      var k :| k in view.Keys;
      view[k].balance + Total(view - {k})
  }

  lemma {:induction false} TotalRemove(view: map<int, BankAccountRow>, k: int)
    requires k in view
    ensures Total(view) == view[k].balance + Total(view - {k})
    decreases view.Keys
  {
    var j :| j in view && Total(view) == view[j].balance + Total(view - {j});
    if j != k {
      assert (view - {j}).Keys == view.Keys - {j};
      assert (view - {k}).Keys == view.Keys - {k};
      TotalRemove(view - {j}, k);
      TotalRemove(view - {k}, j);
      assert view - {j} - {k} == view - {k} - {j};
    }
  }

  lemma TotalUpdate(view: map<int, BankAccountRow>, k: int, row: BankAccountRow)
    requires k in view
    ensures Total(view[k := row]) == Total(view) - view[k].balance + row.balance
  {
    TotalRemove(view, k);
    TotalRemove(view[k := row], k);
    assert view[k := row] - {k} == view - {k};
  }

  /** Money is created or destroyed only by the rate: a transfer changes the
      sum of all balances by amount * (rate - 1), so a same-currency transfer
      leaves it unchanged. */
  lemma SettleTotal(view: map<int, BankAccountRow>, req: CreateNewTransactionRequest, rate: real)
    requires req.from != req.to && req.from in view && req.to in view
    ensures Total(Settle(view, req, rate)) == Total(view) - req.amount + ValueToTransfer(req.amount, rate)
    ensures rate == 1.0 ==> Total(Settle(view, req, rate)) == Total(view)
  {
    var src, dst := view[req.from], view[req.to];
    var v := ValueToTransfer(req.amount, rate);
    var debited := src.(balance := src.balance - req.amount);
    var credited := dst.(balance := dst.balance + v);
    var mid := view[req.from := debited];
    SettleSteps(view, req, rate);
    assert Settle(view, req, rate) == mid[req.to := credited];
    assert mid[req.to] == dst;
    TotalUpdate(view, req.from, debited);
    TotalUpdate(mid, req.to, credited);
  }

  /** `Settle` as two single-key updates, the first of which leaves the
      destination's row alone. */
  lemma SettleSteps(view: map<int, BankAccountRow>, req: CreateNewTransactionRequest, rate: real)
    requires req.from != req.to && req.from in view && req.to in view
    ensures var src, dst := view[req.from], view[req.to];
            && view[req.from := src.(balance := src.balance - req.amount)][req.to] == dst
            && Settle(view, req, rate)
               == view[req.from := src.(balance := src.balance - req.amount)]
                      [req.to := dst.(balance := dst.balance + ValueToTransfer(req.amount, rate))]
  {
  }

  predicate NonNegative(view: map<int, BankAccountRow>) {
    forall k :: k in view ==> view[k].balance >= 0.0
  }

  /** A committed transfer never overdraws its source, whatever the amount. */
  lemma SourceNeverOverdrawn(view: map<int, BankAccountRow>, req: CreateNewTransactionRequest,
                             respond: Currency -> HttpResponse)
    requires Price(view, req, respond).Success?
    ensures req.from in view && req.to in view
    ensures Settle(view, req, Price(view, req, respond).value)[req.from].balance >= 0.0
  {
  }

  /** No balance goes negative, provided the amount and the applied rate are
      not negative: the source code checks neither. */
  lemma SettlePreservesNonNegative(view: map<int, BankAccountRow>, req: CreateNewTransactionRequest,
                                   respond: Currency -> HttpResponse)
    requires NonNegative(view) && Price(view, req, respond).Success?
    requires req.amount >= 0.0 && Price(view, req, respond).value >= 0.0
    ensures req.from in view && req.to in view
    ensures NonNegative(Settle(view, req, Price(view, req, respond).value))
  {
    var rate := Price(view, req, respond).value;
    assert req.amount * rate >= 0.0;
  }

  /** The amount is never checked to be positive: moving -50 from an empty
      account to one holding 10 passes every check and leaves the destination
      at -40. */
  lemma NegativeAmountDrainsDestination(respond: Currency -> HttpResponse)
    ensures var view := map[1 := BankAccountRow(7, USD, 0.0, false), 2 := BankAccountRow(8, USD, 10.0, false)];
            var req := CreateNewTransactionRequest(1, 2, -50.0);
            && Price(view, req, respond) == Success(1.0)
            && Settle(view, req, 1.0)[1].balance == 50.0
            && Settle(view, req, 1.0)[2].balance == -40.0
  {
  }

  /** Account 1 (USD, 1000) sends 100 to account 2 (EUR, 1000) at a quoted
      USD to EUR rate of 0.85: the balances become 900 and 1085. */
  lemma QuotedTransferScenario(respond: Currency -> HttpResponse)
    requires respond(USD) == HttpResponse(200, Some(map["EUR" := 0.85, "GBP" := 0.74]))
    ensures var view := map[1 := BankAccountRow(7, USD, 1000.0, false), 2 := BankAccountRow(8, EUR, 1000.0, false)];
            var req := CreateNewTransactionRequest(1, 2, 100.0);
            && Price(view, req, respond) == Success(0.85)
            && Settle(view, req, 0.85)[1].balance == 900.0
            && Settle(view, req, 0.85)[2].balance == 1085.0
  {
  }

  // ---------------------------------------------------------------------------
  // The pipeline, on the live objects

  method CreateNewTransaction(bankAccounts: BankAccountRepository, transactions: TransactionRepository,
                              rateSource: RateSource, request: CreateNewTransactionRequest,
                              now: Timestamp)
    returns (r: Result<TransactionDTO, Error>)
    requires bankAccounts.Valid() && transactions.Valid()
    modifies bankAccounts.rows.Values, transactions, rateSource
    ensures bankAccounts.Valid() && transactions.Valid()
    ensures bankAccounts.rows == old(bankAccounts.rows) && bankAccounts.nextId == old(bankAccounts.nextId)
    ensures var view := old(bankAccounts.View());
            rateSource.calls == old(rateSource.calls) +
              if ConsultsRateSource(view, request) then [view[request.from].currency] else []
    ensures var view := old(bankAccounts.View());
            var price := Price(view, request, rateSource.respond);
            price.Failure? ==>
              && r == Failure(price.error)
              && bankAccounts.View() == view
              && transactions.rows == old(transactions.rows)
              && transactions.nextId == old(transactions.nextId)
    ensures var view := old(bankAccounts.View());
            var price := Price(view, request, rateSource.respond);
            var id := old(transactions.nextId);
            price.Success? ==>
              && request.from in view && request.to in view
              && bankAccounts.View() == Settle(view, request, price.value)
              && transactions.nextId == id + 1
              && transactions.View() == old(transactions.View())[id := LedgerRow(
                   bankAccounts.rows[request.from], bankAccounts.rows[request.to],
                   view[request.from].currency, view[request.to].currency,
                   request.amount, price.value, now)]
              && r == Success(TransactionDTO(
                   Some(id),
                   AccountTransactionDTO(Some(request.from), FullName(view[request.from].currency)),
                   AccountTransactionDTO(Some(request.to), FullName(view[request.to].currency)),
                   request.amount, price.value, now))
  {
    ghost var view := bankAccounts.View();
    var priced := CheckAndPrice(bankAccounts, rateSource, request);
    assert bankAccounts.Valid() && bankAccounts.View() == view;
    assert transactions.View() == old(transactions.View());
    ghost var price := Price(view, request, rateSource.respond);
    if priced.Failure? {
      return Failure(priced.error);
    }
    assert price == Success(priced.value.exchangeRate);
    r := Commit(bankAccounts, transactions, request, priced.value.fromBankAccount,
                priced.value.toBankAccount, priced.value.exchangeRate, now);
  }

  /** The two accounts a transfer found, and the rate chosen for it. */
  datatype Priced = Priced(fromBankAccount: BankAccount, toBankAccount: BankAccount, exchangeRate: real)

  /** The checks and the rate choice of `createNewTransaction`, up to the
      first write: the outcome is `Price`, the accounts are the stored ones,
      and the rate source is asked only when `ConsultsRateSource` says so. */
  method CheckAndPrice(bankAccounts: BankAccountRepository, rateSource: RateSource,
                       request: CreateNewTransactionRequest)
    returns (r: Result<Priced, Error>)
    modifies rateSource`calls
    ensures var view := bankAccounts.View();
            rateSource.calls == old(rateSource.calls) +
              if ConsultsRateSource(view, request) then [view[request.from].currency] else []
    ensures var price := Price(bankAccounts.View(), request, rateSource.respond);
            && (price.Failure? ==> r == Failure(price.error))
            && (r.Success? ==> price.Success?)
            && (price.Success? ==> && r.Success? && r.value.exchangeRate == price.value
                                   && request.from != request.to
                                   && request.from in bankAccounts.rows && request.to in bankAccounts.rows
                                   && r.value.fromBankAccount == bankAccounts.rows[request.from]
                                   && r.value.toBankAccount == bankAccounts.rows[request.to])
  {
    ghost var view := bankAccounts.View();
    if request.from == request.to {
      return Failure(ImpossibleToRealiseTransaction(SameAccountMessage));
    }

    var found := bankAccounts.FindByIdAndDeletedIsFalse(request.from);
    if found.None? {
      return Failure(EntityNotFound(AccountMissingMessage(request.from)));
    }
    var fromBankAccount := found.value;
    found := bankAccounts.FindByIdAndDeletedIsFalse(request.to);
    if found.None? {
      return Failure(EntityNotFound(AccountMissingMessage(request.from)));
    }
    var toBankAccount := found.value;

    if fromBankAccount.balance - request.amount < 0.0 {
      return Failure(ImpossibleToRealiseTransaction(NotEnoughBalanceMessage));
    }
    assert Validate(view, request).None?;

    var exchangeRate: real;
    if fromBankAccount.currency == toBankAccount.currency {
      exchangeRate := 1.0;
    } else {
      var quote := rateSource.GetExchangeRate(fromBankAccount.currency);
      var rate := RateFromQuote(fromBankAccount.currency, toBankAccount.currency, quote);
      if rate.Failure? {
        return Failure(rate.error);
      }
      exchangeRate := rate.value;
    }
    r := Success(Priced(fromBankAccount, toBankAccount, exchangeRate));
  }

  /** The writes of a transfer that passed every check: both balances, then
      one ledger record snapshotting both currencies. */
  method Commit(bankAccounts: BankAccountRepository, transactions: TransactionRepository,
                request: CreateNewTransactionRequest, fromBankAccount: BankAccount,
                toBankAccount: BankAccount, exchangeRate: real, now: Timestamp)
    returns (r: Result<TransactionDTO, Error>)
    requires bankAccounts.Valid() && transactions.Valid()
    requires request.from != request.to
    requires request.from in bankAccounts.rows && bankAccounts.rows[request.from] == fromBankAccount
    requires request.to in bankAccounts.rows && bankAccounts.rows[request.to] == toBankAccount
    modifies fromBankAccount`balance, toBankAccount`balance, transactions
    ensures bankAccounts.Valid() && transactions.Valid()
    ensures bankAccounts.rows == old(bankAccounts.rows) && bankAccounts.nextId == old(bankAccounts.nextId)
    ensures var view := old(bankAccounts.View());
            var id := old(transactions.nextId);
            && bankAccounts.View() == Settle(view, request, exchangeRate)
            && transactions.nextId == id + 1
            && transactions.View() == old(transactions.View())[id := LedgerRow(
                 bankAccounts.rows[request.from], bankAccounts.rows[request.to],
                 view[request.from].currency, view[request.to].currency,
                 request.amount, exchangeRate, now)]
            && r == Success(TransactionDTO(
                 Some(id),
                 AccountTransactionDTO(Some(request.from), FullName(view[request.from].currency)),
                 AccountTransactionDTO(Some(request.to), FullName(view[request.to].currency)),
                 request.amount, exchangeRate, now))
  {
    ghost var view := bankAccounts.View();
    assert fromBankAccount.id == Some(request.from) && view[request.from].currency == fromBankAccount.currency;
    assert toBankAccount.id == Some(request.to) && view[request.to].currency == toBankAccount.currency;
    ApplyTransfer(bankAccounts, request, fromBankAccount, toBankAccount, exchangeRate);
    var transaction := Record(transactions, fromBankAccount, toBankAccount, request.amount, exchangeRate, now);
    r := Success(ToDTOOut(transaction));
  }

  /** The ledger write: one new record, built from the two accounts as they
      are now, stored under the next id. */
  method Record(transactions: TransactionRepository, fromBankAccount: BankAccount,
                toBankAccount: BankAccount, amount: real, exchangeRate: real, now: Timestamp)
    returns (transaction: Transaction)
    requires transactions.Valid()
    modifies transactions
    ensures transactions.Valid() && fresh(transaction)
    ensures transaction.id == Some(old(transactions.nextId)) && transactions.nextId == old(transactions.nextId) + 1
    ensures transaction.fromAccount == fromBankAccount && transaction.toAccount == toBankAccount
    ensures transaction.amount == amount && transaction.exchangeRate == exchangeRate
    ensures transaction.timestamp == now
    ensures transactions.View() == old(transactions.View())[old(transactions.nextId) := LedgerRow(
              fromBankAccount, toBankAccount, fromBankAccount.currency, toBankAccount.currency,
              amount, exchangeRate, now)]
  {
    transaction := new Transaction(fromBankAccount, toBankAccount, amount, exchangeRate, now);
    var _ := transactions.Insert(transaction);
  }

  /** The two balance writes: the source loses the amount and the destination
      gains the value to transfer; no other account changes. */
  method ApplyTransfer(bankAccounts: BankAccountRepository, request: CreateNewTransactionRequest,
                       fromBankAccount: BankAccount, toBankAccount: BankAccount, exchangeRate: real)
    requires bankAccounts.Valid()
    requires request.from != request.to
    requires request.from in bankAccounts.rows && bankAccounts.rows[request.from] == fromBankAccount
    requires request.to in bankAccounts.rows && bankAccounts.rows[request.to] == toBankAccount
    modifies fromBankAccount`balance, toBankAccount`balance
    ensures bankAccounts.Valid()
    ensures bankAccounts.View() == Settle(old(bankAccounts.View()), request, exchangeRate)
  {
    ghost var view := bankAccounts.View();
    var valueToTransfer := ValueToTransfer(request.amount, exchangeRate);
    fromBankAccount.SetBalance(fromBankAccount.balance - request.amount);
    toBankAccount.SetBalance(toBankAccount.balance + valueToTransfer);
    forall k | k in view
      ensures k in bankAccounts.View() && bankAccounts.View()[k] == Settle(view, request, exchangeRate)[k]
    {
      if k != request.from && k != request.to {
        assert bankAccounts.rows[k].id == Some(k);
      }
    }
    assert bankAccounts.View() == Settle(view, request, exchangeRate);
  }

  /** `getTransactionById`: the stored record, shown through the mapper, or
      "Transaction with id N does not exist". */
  method GetTransactionById(transactions: TransactionRepository, id: int) returns (r: Result<TransactionDTO, Error>)
    requires transactions.Valid()
    ensures id !in transactions.rows ==> r == Failure(EntityNotFound(TransactionMissingMessage(id)))
    ensures id in transactions.rows ==> r == Success(ToDTOOut(transactions.rows[id]))
    ensures r.Success? ==> r.value.id == Some(id)
  {
    var found := transactions.FindById(id);
    if found.None? {
      return Failure(EntityNotFound(TransactionMissingMessage(id)));
    }
    r := Success(ToDTOOut(found.value));
  }
}
