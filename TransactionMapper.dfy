/** `TransactionMapper.toDTOOut`: the outward view of a ledger record. */
module TransactionMapper {
  import opened Wrappers
  import opened Currencies
  import opened Model

  datatype AccountTransactionDTO = AccountTransactionDTO(accountId: Option<int>, currency: string)

  datatype TransactionDTO = TransactionDTO(id: Option<int>, from: AccountTransactionDTO,
                                           to: AccountTransactionDTO, amount: real,
                                           exchangeRate: real, timestamp: Timestamp)

  /** Each side names its account and that account's currency as it is NOW
      (read through the account, not from the record's snapshot fields); the
      full name shown identifies that currency uniquely. The figures are
      copied unchanged. */
  function ToDTOOut(t: Transaction): (r: TransactionDTO)
    reads t, t.fromAccount, t.toAccount
    ensures r.id == t.id
    ensures r.from.accountId == t.fromAccount.id && r.to.accountId == t.toAccount.id
    ensures forall c :: FullName(c) == r.from.currency <==> c == t.fromAccount.currency
    ensures forall c :: FullName(c) == r.to.currency <==> c == t.toAccount.currency
    ensures r.amount == t.amount && r.exchangeRate == t.exchangeRate && r.timestamp == t.timestamp
  {
    FullNameInjective();
    TransactionDTO(
      t.id,
      AccountTransactionDTO(t.fromAccount.id, FullName(t.fromAccount.currency)),
      AccountTransactionDTO(t.toAccount.id, FullName(t.toAccount.currency)),
      t.amount,
      t.exchangeRate,
      t.timestamp)
  }

  /** A record built for USD accounts, whose source account is switched to EUR
      afterwards, keeps USD in its snapshot but is shown as "Euro". */
  method ShownCurrencyIsCurrent() returns (snapshot: Currency, shown: string)
    ensures snapshot == USD && shown == "Euro"
  {
    var from := new BankAccount(1, USD, 100.0);
    var to := new BankAccount(2, USD, 0.0);
    var t := new Transaction(from, to, 10.0, 1.0, 0);
    from.SetCurrency(EUR);
    snapshot := t.fromCurrency;
    shown := ToDTOOut(t).from.currency;
  }
}
