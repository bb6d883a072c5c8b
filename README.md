# transaction_manager, modelled in Dafny

This project models the core of the `transaction_manager` service: a
money-transfer engine over balance-holding bank accounts, and the bookkeeping
for owners and bank accounts around it.

- **Transfer engine** (`TransactionService.createNewTransaction`). It checks
  in a fixed order:
  1. refuse a self-transfer;
  2. load the live source, then the live destination;
  3. refuse a transfer that would take the source below zero (ending at zero is allowed);
  4. choose the rate: 1 for one currency, otherwise the destination code's
     entry in a quote fetched for the source currency.

  It then debits the source by the amount, credits the destination with
  amount × rate, and appends one ledger record.
- **Account lifecycle** (`BankAccountService`, `AccountService`):
  - creation checks its inputs in order;
  - lookups see only live rows;
  - deletion is a soft delete;
  - deleting an owner marks every bank account the owner holds as deleted, one at a time.
- **Supporting pieces**:
  - the closed currency enumeration and its `currencyExists` parser;
  - the `BankAccount`, `Transaction` and owner `Account` entities;
  - the `toDTOOut` projection of a ledger record;
  - the controller advice that maps each exception kind to an HTTP status.

How it is built:

- **Entities are Dafny classes** (`Model`). Their setters change one field each.
- **Each repository is a class** holding a map from id to the stored object
  and the next id to hand out (`Repositories`). `Valid()` says every object is
  stored under its own id. `View()` is the table as values.
- **Each service operation is a method** that works on the live objects, as
  the Java code does. Its contract ties the new state to a pure function of
  the old table: `Validate`, `Price` and `Settle` for transfers; `NewBankAccount`
  and `SoftDelete` for bank accounts; `NewAccount`, `SoftDeleteOwner` and
  `Cascade` for owners.
- **Lemmas about those functions** state what the services promise. Examples
  are the check order, conservation of money under a rate of 1, "nothing else
  changes", and that every live bank account keeps a live owner.
- **Exceptions are values.** A thrown exception is a `Failure` of the `Error`
  datatype, carrying the exception's message.
- **Nulls are options.** A request field the code tests for `null` (the
  account and bank-account creation fields) is an `Option`, with `None` for
  `null`. Fields the code uses without a test are always present (see "## Left out").
- **Amounts and rates are `real`**, so `BigDecimal` arithmetic is exact.

Three behaviours of the code, modelled as written:

- **The amount is never checked to be positive**
  (`service/TransactionService.java:65`). A negative amount passes the
  balance check and lowers the destination's balance
  (`TransactionService.NegativeAmountDrainsDestination`). Non-negative balances
  are therefore proved only for a non-negative amount and rate
  (`TransactionService.SettlePreservesNonNegative`).
- **The quoted rate is not checked to be positive.** Whatever the quote holds
  is applied.
- **Both not-found exits of a transfer name the source id**
  (`service/TransactionService.java:62`). When only the destination is missing,
  the message does not name the missing id
  (`TransactionService.MissingAccountRefused`).

## Model

| member | source | states |
|---|---|---|
| Currencies.ValuesListsEveryConstant | src/main/java/io/renatofreire/transaction_manager/enums/Currencies.java:4-25 | the array `currencyExists` scans holds every constant |
| Currencies.NameInjective | src/main/java/io/renatofreire/transaction_manager/enums/Currencies.java:4-21 | no two constants share a name |
| Currencies.FullNameInjective | src/main/java/io/renatofreire/transaction_manager/enums/Currencies.java:4-21 | no two constants share a full name, so a full name identifies its currency |
| Currencies.Name | src/main/java/io/renatofreire/transaction_manager/enums/Currencies.java:4-21 | `name()` of each constant is its declared identifier, always three upper-case letters |
| Currencies.FullName | src/main/java/io/renatofreire/transaction_manager/enums/Currencies.java:40-42 | `getFullName()` is the description declared with the constant (Currencies.java:4-21), a non-empty capitalised phrase; `FullNameInjective` shows no two constants share one |
| Currencies.FindByName | src/main/java/io/renatofreire/transaction_manager/enums/Currencies.java:32-37 | the scan from index i returns a constant at or after i whose name equals the string; it returns nothing only when no constant from i on has that name |
| Currencies.CurrencyExists | src/main/java/io/renatofreire/transaction_manager/enums/Currencies.java:31-38 | a result is a constant whose name equals the argument; null comes back exactly for a null argument or a string that is no constant's name |
| Currencies.CurrencyExistsRoundTrip | src/main/java/io/renatofreire/transaction_manager/enums/Currencies.java:31-38 | parsing any constant's name gives back that constant |
| Currencies.CurrencyExistsRejectsUnknown | src/main/java/io/renatofreire/transaction_manager/enums/Currencies.java:37 | "RPF" is rejected |
| Currencies.CurrencyExistsIsCaseSensitive | src/main/java/io/renatofreire/transaction_manager/enums/Currencies.java:33 | any string with a lower-case letter in it is rejected, so the match is case-sensitive |
| Strings.IntToString | src/main/java/io/renatofreire/transaction_manager/service/TransactionService.java:61 | `%s` of a `Long` id prints a '-' exactly for a negative id, followed by decimal digits only |
| Strings.IntToStringInjective | src/main/java/io/renatofreire/transaction_manager/service/TransactionService.java:61 | two different ids never print the same, so a message naming an id names exactly that id |
| Strings.UpperCase | src/main/java/io/renatofreire/transaction_manager/repository/AccountRepository.java:14 | the case folding used to compare emails keeps the length and upper-cases each ASCII letter |
| Strings.UpperCaseIdempotent | src/main/java/io/renatofreire/transaction_manager/repository/AccountRepository.java:14 | folding twice is folding once |
| Model.Account.constructor | src/main/java/io/renatofreire/transaction_manager/service/AccountService.java:49 | a new owner holds the given names, email and date of birth, is live and has no id |
| Model.Account.SetId | src/main/java/io/renatofreire/transaction_manager/service/AccountService.java:50 | saving assigns the id |
| Model.Account.SetDeleted | src/main/java/io/renatofreire/transaction_manager/service/AccountService.java:74 | sets the liveness flag to the given value |
| Model.BankAccount.constructor | src/main/java/io/renatofreire/transaction_manager/model/BankAccount.java:33-38 | a new bank account holds the given owner, currency and balance, is live and has no id |
| Model.BankAccount.SetId | src/main/java/io/renatofreire/transaction_manager/model/BankAccount.java:44-46 | sets the id |
| Model.BankAccount.SetCurrency | src/main/java/io/renatofreire/transaction_manager/model/BankAccount.java:60-62 | changes the currency and no other field |
| Model.BankAccount.SetBalance | src/main/java/io/renatofreire/transaction_manager/model/BankAccount.java:68-70 | changes the balance; id, owner, currency and liveness are unchanged |
| Model.BankAccount.SetDeleted | src/main/java/io/renatofreire/transaction_manager/model/BankAccount.java:76-78 | changes the liveness flag; id, owner, currency and balance are unchanged |
| Model.Transaction.constructor | src/main/java/io/renatofreire/transaction_manager/model/Transaction.java:43-51 | a ledger record refers to both accounts, snapshots their currencies at construction, stores the amount, rate and timestamp unchanged, and has no id |
| Model.Transaction.SetId | src/main/java/io/renatofreire/transaction_manager/model/Transaction.java:57-59 | sets the id |
| Repositories.AccountRepository.constructor | src/main/java/io/renatofreire/transaction_manager/service/AccountService.java:31-34 | the injected owner store starts empty and valid, with the identity column at 1 |
| Repositories.AccountRepository.FindByIdAndDeletedIsFalse | src/main/java/io/renatofreire/transaction_manager/repository/AccountRepository.java:16 | finds the stored owner exactly when the id is stored and not soft-deleted |
| Repositories.AccountRepository.ExistsByEmailIgnoreCase | src/main/java/io/renatofreire/transaction_manager/repository/AccountRepository.java:14 | true exactly when some stored owner, soft-deleted or not, has the email up to letter case |
| Repositories.AccountRepository.Insert | src/main/java/io/renatofreire/transaction_manager/service/AccountService.java:50 | saving a new owner stores it under the next id, gives it that id, and leaves every other row as it was |
| Repositories.BankAccountRepository.constructor | src/main/java/io/renatofreire/transaction_manager/service/BankAccountService.java:28-31 | the injected bank-account store starts empty and valid, with the identity column at 1 |
| Repositories.BankAccountRepository.FindByIdAndDeletedIsFalse | src/main/java/io/renatofreire/transaction_manager/service/BankAccountService.java:66 | finds the stored bank account exactly when the id is stored and not soft-deleted |
| Repositories.BankAccountRepository.FindAllByOwnerId | src/main/java/io/renatofreire/transaction_manager/service/AccountService.java:69 | the ids found are exactly the stored bank accounts of that owner, soft-deleted ones included |
| Repositories.BankAccountRepository.Insert | src/main/java/io/renatofreire/transaction_manager/service/BankAccountService.java:54 | saving a new bank account stores it under the next id, gives it that id, and leaves every other row as it was |
| Repositories.TransactionRepository.constructor | src/main/java/io/renatofreire/transaction_manager/service/TransactionService.java:37-40 | the injected ledger starts empty and valid, with the identity column at 1 |
| Repositories.TransactionRepository.FindById | src/main/java/io/renatofreire/transaction_manager/service/TransactionService.java:49 | finds the stored record exactly when the id is stored |
| Repositories.TransactionRepository.Insert | src/main/java/io/renatofreire/transaction_manager/service/TransactionService.java:104 | saving a record appends it under the next id, gives it that id, and leaves every earlier record as it was |
| ExchangeRates.ReadQuote | src/main/java/io/renatofreire/transaction_manager/service/ExchangeRateService.java:27-37 | a status outside 2xx fails with "Currency X not supported" for the base currency; a 2xx response yields its decoded rates, absent or not |
| ExchangeRates.RateSource.constructor | src/main/java/io/renatofreire/transaction_manager/service/ExchangeRateService.java:21-23 | the rate source answers through the given remote answers and starts with no call recorded |
| ExchangeRates.RateSource.GetExchangeRate | src/main/java/io/renatofreire/transaction_manager/service/ExchangeRateService.java:27-37 | answers as `ReadQuote` on the remote answer for the base currency, and records the call for that base currency |
| TransactionMapper.ToDTOOut | src/main/java/io/renatofreire/transaction_manager/mapper/TransactionMapper.java:14-23 | the DTO carries the record's id, both accounts' ids, the full name of each account's current currency (which identifies that currency), and the amount, rate and timestamp unchanged |
| TransactionMapper.ShownCurrencyIsCurrent | src/main/java/io/renatofreire/transaction_manager/mapper/TransactionMapper.java:17-18 | a record whose source account switches from USD to EUR after it is built keeps USD in its snapshot but is shown as "Euro" |
| CustomExceptionHandler.HandleNotFound | src/main/java/io/renatofreire/transaction_manager/exceptionHandlers/CustomExceptionHandler.java:22-24 | answers 404 with the exception's message as the body |
| CustomExceptionHandler.HandleBadRequest | src/main/java/io/renatofreire/transaction_manager/exceptionHandlers/CustomExceptionHandler.java:33-35 | answers 400 with the exception's message as the body |
| CustomExceptionHandler.HandleEmailTaken | src/main/java/io/renatofreire/transaction_manager/exceptionHandlers/CustomExceptionHandler.java:39-41 | answers 403 with the exception's message as the body |
| CustomExceptionHandler.Handle | src/main/java/io/renatofreire/transaction_manager/exceptionHandlers/CustomExceptionHandler.java:17-41 | 404 exactly for the rate-not-found, no-such-element and entity-not-found kinds; 400 exactly for the impossible-transaction, account, bank-account and currency kinds; 403 exactly for a taken email; the body is the exception's message verbatim |
| TransactionService.AccountMissingMessageInjective | src/main/java/io/renatofreire/transaction_manager/service/TransactionService.java:61-62 | the not-found message for one id differs from the message for any other id |
| TransactionService.Validate | src/main/java/io/renatofreire/transaction_manager/service/TransactionService.java:55-67 | the checks before pricing all pass exactly when the two ids differ, both accounts are live, and the source's balance minus the amount is at least zero |
| TransactionService.RateFromQuote | src/main/java/io/renatofreire/transaction_manager/service/TransactionService.java:79-87 | a rate is found exactly when the lookup succeeded with a map holding the destination's code, and it is that entry; otherwise the lookup's own error, or "Exchange rate between FROM and TO not found" |
| TransactionService.Price | src/main/java/io/renatofreire/transaction_manager/service/TransactionService.java:56-90 | the outcome of the checks and the rate choice: a rate is given only to a request that passes every check, and it is 1 between accounts of one currency and otherwise the destination's entry in a successful quote for the source currency, never a default |
| TransactionService.ValueToTransfer | src/main/java/io/renatofreire/transaction_manager/service/TransactionService.java:93 | the credited value is the amount itself at rate 1, and non-negative for a non-negative amount and rate |
| TransactionService.Settle | src/main/java/io/renatofreire/transaction_manager/service/TransactionService.java:93-98 | the table keeps its ids, the source's balance drops by the amount and the destination's rises by the value to transfer |
| TransactionService.SelfTransferRefused | src/main/java/io/renatofreire/transaction_manager/service/TransactionService.java:56-58 | a self-transfer is refused with "Impossible to send money to same account", whatever the table, the balance and the rate source |
| TransactionService.MissingAccountRefused | src/main/java/io/renatofreire/transaction_manager/service/TransactionService.java:61-62 | a missing or soft-deleted source or destination is not found, with a message naming the source id; when only the destination is missing, the message does not name it |
| TransactionService.BalanceCheckExact | src/main/java/io/renatofreire/transaction_manager/service/TransactionService.java:65-67 | between two distinct live accounts the transfer is refused as insufficient exactly when the balance minus the amount is below zero |
| TransactionService.SameCurrencyRateIsOne | src/main/java/io/renatofreire/transaction_manager/service/TransactionService.java:72-74 | one currency on both sides gives a rate of exactly 1, and the rate source is not asked |
| TransactionService.CrossCurrencyPricing | src/main/java/io/renatofreire/transaction_manager/service/TransactionService.java:77-87 | for two currencies, a failed lookup for the source currency is "Currency X not supported"; no rates or no entry for the destination is "Exchange rate between FROM and TO not found"; otherwise the rate is the quoted entry |
| TransactionService.PriceReadsOnlySourceQuote | src/main/java/io/renatofreire/transaction_manager/service/TransactionService.java:69-90 | the outcome depends on the rate source only through the source currency's quote, and not at all for same-currency or refused requests |
| TransactionService.SettleMovesAmount | src/main/java/io/renatofreire/transaction_manager/service/TransactionService.java:93-98 | the source loses the amount, the destination gains amount × rate, no other account changes, and no field other than the balance changes |
| TransactionService.SettleTotal | src/main/java/io/renatofreire/transaction_manager/service/TransactionService.java:93-98 | the sum of all balances changes by exactly amount × rate − amount, so a same-currency transfer conserves money |
| TransactionService.SourceNeverOverdrawn | src/main/java/io/renatofreire/transaction_manager/service/TransactionService.java:65-97 | a transfer that passes every check leaves its source at zero or above |
| TransactionService.SettlePreservesNonNegative | src/main/java/io/renatofreire/transaction_manager/service/TransactionService.java:65-98 | with a non-negative amount and rate, a committed transfer keeps every balance non-negative |
| TransactionService.NegativeAmountDrainsDestination | src/main/java/io/renatofreire/transaction_manager/service/TransactionService.java:65-67 | moving −50 from an empty account to one holding 10 passes every check and leaves the destination at −40 |
| TransactionService.QuotedTransferScenario | src/main/java/io/renatofreire/transaction_manager/service/TransactionService.java:77-98 | 100 sent from a USD account at 1000 to a EUR account at 1000, at a quoted rate of 0.85, leaves 900 and 1085 |
| TransactionService.CreateNewTransaction | src/main/java/io/renatofreire/transaction_manager/service/TransactionService.java:54-108 | on a refusal the error is `Price`'s and no balance or ledger record changes; on success the balances become `Settle` at the chosen rate, one record with the amount, rate and both currency snapshots is appended, and its DTO is returned; the rate source is asked exactly when `ConsultsRateSource` holds |
| TransactionService.CheckAndPrice | src/main/java/io/renatofreire/transaction_manager/service/TransactionService.java:56-90 | the checks and the rate choice give exactly `Price`'s outcome and the two stored accounts, and ask the rate source only for cross-currency requests that pass every check |
| TransactionService.Commit | src/main/java/io/renatofreire/transaction_manager/service/TransactionService.java:93-107 | the writes of an accepted transfer: `Settle` on the balances, one ledger record under the next id, and its DTO |
| TransactionService.ApplyTransfer | src/main/java/io/renatofreire/transaction_manager/service/TransactionService.java:93-100 | the two balance writes turn the table into `Settle` of the old one |
| TransactionService.Record | src/main/java/io/renatofreire/transaction_manager/service/TransactionService.java:103-104 | one new ledger record is stored under the next id, with both accounts, their current currencies, the amount, the rate and the timestamp |
| TransactionService.GetTransactionById | src/main/java/io/renatofreire/transaction_manager/service/TransactionService.java:48-51 | an unknown id fails with "Transaction with id N does not exist"; a stored one is returned through the mapper with that id |
| BankAccountService.NewBankAccount | src/main/java/io/renatofreire/transaction_manager/service/BankAccountService.java:35-52 | checks in order: a negative balance, then an unknown currency code, then a missing owner id, then a missing or deleted owner; creation succeeds exactly when all pass, with the parsed currency, the owner, the balance (0 when absent) and a live row |
| BankAccountService.UnknownCurrencyBeforeOwner | src/main/java/io/renatofreire/transaction_manager/service/BankAccountService.java:40-50 | an unknown currency code is reported even when the owner id is missing or names nobody |
| BankAccountService.ZeroOpeningBalanceAccepted | src/main/java/io/renatofreire/transaction_manager/service/BankAccountService.java:35-52 | a zero or absent opening balance is accepted and opens the account at zero |
| BankAccountService.SoftDelete | src/main/java/io/renatofreire/transaction_manager/service/BankAccountService.java:70-76 | succeeds exactly for a live id, which becomes soft-deleted with nothing else changing; any other id fails with "Bank account with id N does not exist" |
| BankAccountService.SoftDeleteBlocksTransfers | src/main/java/io/renatofreire/transaction_manager/service/BankAccountService.java:70-76 | after a bank account is closed, no transfer from or to it goes through |
| BankAccountService.NewBankAccountKeepsOwnersLive | src/main/java/io/renatofreire/transaction_manager/service/BankAccountService.java:50-54 | opening a bank account keeps every live bank account's owner live |
| BankAccountService.SoftDeleteKeepsOwnersLive | src/main/java/io/renatofreire/transaction_manager/service/BankAccountService.java:70-76 | closing a bank account keeps every live bank account's owner live |
| BankAccountService.SettleKeepsOwnersLive | src/main/java/io/renatofreire/transaction_manager/service/TransactionService.java:97-98 | a transfer changes no owner and no liveness flag |
| BankAccountService.CreateBankAccount | src/main/java/io/renatofreire/transaction_manager/service/BankAccountService.java:33-58 | on a refusal the error is `NewBankAccount`'s and nothing is stored; on success exactly one new live bank account, `NewBankAccount`'s row, is stored under the next id, the next id advances by one, and the account is returned |
| BankAccountService.Open | src/main/java/io/renatofreire/transaction_manager/service/BankAccountService.java:52-54 | a new live bank account with the given owner, currency and balance is stored under the next id |
| BankAccountService.GetBankAccountById | src/main/java/io/renatofreire/transaction_manager/service/BankAccountService.java:65-68 | returns the stored bank account exactly when it is live; otherwise fails with "Bank account with id N does not exist" |
| BankAccountService.DeleteAccountById | src/main/java/io/renatofreire/transaction_manager/service/BankAccountService.java:70-77 | the table becomes `SoftDelete` of the old one and true is returned, or the call fails with nothing changed; afterwards the account is not found |
| AccountService.NewAccount | src/main/java/io/renatofreire/transaction_manager/service/AccountService.java:36-50 | missing data is refused first, then an email taken up to letter case; creation succeeds exactly when both pass, with the given fields and a live row |
| AccountService.NewAccountKeepsEmailsUnique | src/main/java/io/renatofreire/transaction_manager/service/AccountService.java:43-50 | opening owners keeps emails unique up to letter case |
| AccountService.UpperCaseOfStoredEmailTaken | src/main/java/io/renatofreire/transaction_manager/service/AccountService.java:43-46 | the upper-case spelling of any stored email, even a soft-deleted owner's, is taken |
| AccountService.SoftDeleteOwner | src/main/java/io/renatofreire/transaction_manager/service/AccountService.java:67-75 | succeeds exactly for a live owner, which becomes soft-deleted with no other owner changing; any other id fails with "Account with id N does not exist" |
| AccountService.Cascade | src/main/java/io/renatofreire/transaction_manager/service/AccountService.java:69-72 | every bank account of the owner, live or not, ends soft-deleted; every other bank account is unchanged; no field but the liveness flag changes |
| AccountService.CascadeBlocksTransfers | src/main/java/io/renatofreire/transaction_manager/service/AccountService.java:69-72 | after an owner is closed, no transfer from or to any of the owner's bank accounts goes through |
| AccountService.CloseOwnerKeepsOwnersLive | src/main/java/io/renatofreire/transaction_manager/service/AccountService.java:66-78 | closing an owner keeps every live bank account's owner live |
| AccountService.NewAccountKeepsOwnersLive | src/main/java/io/renatofreire/transaction_manager/service/AccountService.java:49-50 | opening an owner under a fresh id keeps every live bank account's owner live |
| AccountService.CreateAccount | src/main/java/io/renatofreire/transaction_manager/service/AccountService.java:36-54 | on a refusal the error is `NewAccount`'s and nothing is stored; on success exactly one new live owner, `NewAccount`'s row, is stored under a fresh id, the next id advances by one, and the owner is returned |
| AccountService.GetAccountById | src/main/java/io/renatofreire/transaction_manager/service/AccountService.java:61-64 | returns the stored owner exactly when it is live; otherwise fails with "Account with id N does not exist" |
| AccountService.DeleteAccountById | src/main/java/io/renatofreire/transaction_manager/service/AccountService.java:66-78 | for a live owner, the owners become `SoftDeleteOwner` and the bank accounts become `Cascade` of the old tables; any other id fails and neither table changes |
| AccountService.CloseOwner | src/main/java/io/renatofreire/transaction_manager/service/AccountService.java:74-75 | the live owner is marked deleted and no other owner changes |
| AccountService.CascadeToBankAccounts | src/main/java/io/renatofreire/transaction_manager/service/AccountService.java:69-72 | the loop over the owner's bank accounts turns the table into `Cascade` of the old one |

## Left out

- The HTTP call to the exchange-rate service and its JSON decoding are replaced by `RateSource.respond`, a function from base currency to status and decoded rates. The RestClient configuration and the API key are not modelled.
- Serializable isolation of `createNewTransaction` is not modelled. Each call is one sequential step, so the concurrency promise is not covered.
- The quoted rates are Java `Double`s converted with `BigDecimal.valueOf`. They are modelled as exact `real`s. A `null` value inside the rates map cannot be expressed; the Java code treats it like a missing entry.
- `BigDecimal` scale is not modelled: a balance is a `real`, so 1.0 and 1.00 are the same value.
- Request ids and the transfer amount are always present. A `null` from id throws a `NullPointerException` at `service/TransactionService.java:56`, and a `null` amount throws one at :65, after both lookups and before any write; neither exception is modelled. A `null` to id or lookup id is passed to the repository, whose handling of `null` is not modelled.
- A transport failure of the rate call, or a 2xx body that cannot be decoded (`service/ExchangeRateService.java:28-36`), cannot be expressed by `respond`, which always yields a status and a decoded rates map.
- Pagination and the list endpoints are not modelled: `getAllTransactions`, `getAllBankAccount`, `getAllAccounts` and `findAllByDeletedIsFalse`.
- Controllers, configuration, logging and the DTO records other than the transaction DTO are not modelled.
- BankAccountService.CreateBankAccount: returns the stored entity rather than a DTO, because the generated `BankAccountMapper` is not visible.
- BankAccountService.GetBankAccountById: returns the stored entity rather than a DTO, for the same reason.
- AccountService.CreateAccount: returns the stored entity rather than a DTO, because the generated `AccountMapper` is not visible.
- AccountService.GetAccountById: returns the stored entity rather than a DTO, for the same reason.
- `model/Account.java` is not part of this model. The owner entity is modelled from how the services use it: the constructor, the id and the liveness flag.
- A bank account's owner is kept as the owner's id (the `owner_id` column), not as an object reference.
- Getters are field reads. The setters of `Transaction` other than `setId`, and `BankAccount.setOwner`, are unused by the services and not modelled.
- Strings.UpperCase: folds ASCII letters only. The database's case-insensitive comparison for other alphabets is not modelled.
- `ZonedDateTime.now()` is an input parameter (`now`). A date of birth is stored and copied, never inspected.
- `save` and `saveAll` of an already-stored entity are not modelled as separate steps: the objects are updated in place and are already in their table.
- `forEach` over the owner's bank accounts visits them in list order. The model visits them in an arbitrary order, which gives the same final state.
- `CreateBankAccountRequest.balance` is a `BigDecimal` compared as a number. It is modelled as an optional `real`.
- TransactionService.Total: sums every stored balance, soft-deleted accounts included.
- TransactionService.SettlePreservesNonNegative: assumes a non-negative amount and rate, because the Java code checks neither.
