/** Opening, finding and closing bank accounts (service/BankAccountService.java).
    `NewBankAccount` and `SoftDelete` specify, over the tables as values, what
    `createBankAccount` and `deleteAccountById` decide and write; the methods
    are the imperative service calls, proved to do exactly that. */
module BankAccountService {
  import opened Wrappers
  import opened Currencies
  import opened Strings
  import opened Errors
  import opened Model
  import opened Repositories
  import opened ExchangeRates
  import opened TransactionService

  /** The request body; each field may be absent (Java's null). */
  datatype CreateBankAccountRequest =
    CreateBankAccountRequest(currency: Option<string>, balance: Option<real>, ownerId: Option<int>)

  const NegativeBalanceMessage := "Balance cannot be negative at the moment of account creation"
  const UnknownCurrencyMessage := "The currency passed by the user does not exist"
  const OwnerMandatoryMessage := "Owner id is mandatory"

  function OwnerMissingMessage(id: int): string {
    "User with id " + IntToString(id) + " not found"
  }

  function BankAccountMissingMessage(id: int): string {
    "Bank account with id " + IntToString(id) + " does not exist"
  }

  /** The checks of `createBankAccount`, in the order the method runs them, and
      the row it stores when all pass: the balance, then the currency code, then the
      presence of an owner id, then a live owner. */
  function NewBankAccount(owners: map<int, AccountRow>, req: CreateBankAccountRequest)
    : (r: Result<BankAccountRow, Error>)
    ensures req.balance.Some? && req.balance.value < 0.0 ==>
              r == Failure(NotPossibleCreateBankAccount(NegativeBalanceMessage))
    ensures (req.balance.None? || req.balance.value >= 0.0) &&
            (req.currency.None? || forall c :: Name(c) != req.currency.value) ==>
              r == Failure(CurrencyDoesNotExist(UnknownCurrencyMessage))
    ensures (req.balance.None? || req.balance.value >= 0.0) && CurrencyExists(req.currency).Some? &&
            req.ownerId.None? ==>
              r == Failure(NotPossibleCreateBankAccount(OwnerMandatoryMessage))
    ensures (req.balance.None? || req.balance.value >= 0.0) && CurrencyExists(req.currency).Some? &&
            req.ownerId.Some? && !IsLiveOwner(owners, req.ownerId.value) ==>
              r == Failure(EntityNotFound(OwnerMissingMessage(req.ownerId.value)))
    ensures r.Success? <==> (req.balance.None? || req.balance.value >= 0.0) &&
                            CurrencyExists(req.currency).Some? &&
                            req.ownerId.Some? && IsLiveOwner(owners, req.ownerId.value)
    ensures r.Success? ==> && req.currency.Some? && Name(r.value.currency) == req.currency.value
                           && req.ownerId == Some(r.value.owner)
                           && r.value.balance == req.balance.GetOr(0.0)
                           && r.value.balance >= 0.0
                           && !r.value.deleted
  {
    if req.balance.Some? && req.balance.value < 0.0 then
      Failure(NotPossibleCreateBankAccount(NegativeBalanceMessage))
    else
      var currency := CurrencyExists(req.currency);
      if currency.None? then Failure(CurrencyDoesNotExist(UnknownCurrencyMessage))
      else if req.ownerId.None? then Failure(NotPossibleCreateBankAccount(OwnerMandatoryMessage))
      else if !IsLiveOwner(owners, req.ownerId.value) then
        Failure(EntityNotFound(OwnerMissingMessage(req.ownerId.value)))
      else Success(BankAccountRow(req.ownerId.value, currency.value, req.balance.GetOr(0.0), false))
  }

  /** The currency check comes before the owner checks: an unknown code is
      reported even when the owner id is missing or names nobody. */
  lemma UnknownCurrencyBeforeOwner(owners: map<int, AccountRow>, req: CreateBankAccountRequest)
    requires req.balance.None? || req.balance.value >= 0.0
    requires req.currency.None? || forall c :: Name(c) != req.currency.value
    ensures NewBankAccount(owners, req) == Failure(CurrencyDoesNotExist(UnknownCurrencyMessage))
  {
  }

  /** A zero opening balance is allowed, as is none at all, which opens the
      account at zero. */
  lemma ZeroOpeningBalanceAccepted(owners: map<int, AccountRow>, c: Currency, owner: int,
                                   balance: Option<real>)
    requires IsLiveOwner(owners, owner) && (balance == None || balance == Some(0.0))
    ensures NewBankAccount(owners, CreateBankAccountRequest(Some(Name(c)), balance, Some(owner)))
            == Success(BankAccountRow(owner, c, 0.0, false))
  {
    CurrencyExistsRoundTrip(c);
  }

  /** `deleteAccountById` on the table as values: a live account becomes
      soft-deleted and nothing else changes; any other id is not found. */
  function SoftDelete(view: map<int, BankAccountRow>, id: int): (r: Result<map<int, BankAccountRow>, Error>)
    ensures r.Success? <==> IsLive(view, id)
    ensures r.Failure? ==> r.error == EntityNotFound(BankAccountMissingMessage(id))
    ensures r.Success? ==> && r.value.Keys == view.Keys
                           && r.value[id].deleted && !IsLive(r.value, id)
                           && r.value[id] == view[id].(deleted := true)
                           && (forall k :: k in view && k != id ==> r.value[k] == view[k])
  {
    if !IsLive(view, id) then Failure(EntityNotFound(BankAccountMissingMessage(id)))
    else Success(view[id := view[id].(deleted := true)])
  }

  /** A closed account can no longer send or receive: every transfer naming
      it between two distinct accounts is refused as not found. */
  lemma SoftDeleteBlocksTransfers(view: map<int, BankAccountRow>, id: int,
                                  req: CreateNewTransactionRequest, respond: Currency -> HttpResponse)
    requires SoftDelete(view, id).Success?
    requires req.from != req.to && (req.from == id || req.to == id)
    ensures Price(SoftDelete(view, id).value, req, respond)
            == Failure(EntityNotFound(AccountMissingMessage(req.from)))
  {
    MissingAccountRefused(SoftDelete(view, id).value, req, respond);
  }

  /** Every live bank account belongs to a live owner. */
  ghost predicate OwnersLive(owners: map<int, AccountRow>, view: map<int, BankAccountRow>) {
    forall k :: IsLive(view, k) ==> IsLiveOwner(owners, view[k].owner)
  }

  /** Opening an account keeps every live account's owner live. */
  lemma NewBankAccountKeepsOwnersLive(owners: map<int, AccountRow>, view: map<int, BankAccountRow>,
                                      req: CreateBankAccountRequest, id: int)
    requires OwnersLive(owners, view) && NewBankAccount(owners, req).Success?
    ensures OwnersLive(owners, view[id := NewBankAccount(owners, req).value])
  {
  }

  /** Closing an account keeps every live account's owner live. */
  lemma SoftDeleteKeepsOwnersLive(owners: map<int, AccountRow>, view: map<int, BankAccountRow>, id: int)
    requires OwnersLive(owners, view) && SoftDelete(view, id).Success?
    ensures OwnersLive(owners, SoftDelete(view, id).value)
  {
  }

  /** A transfer moves money, never ownership or liveness. */
  lemma SettleKeepsOwnersLive(owners: map<int, AccountRow>, view: map<int, BankAccountRow>,
                              req: CreateNewTransactionRequest, rate: real)
    requires OwnersLive(owners, view) && req.from != req.to && req.from in view && req.to in view
    ensures OwnersLive(owners, Settle(view, req, rate))
  {
    SettleMovesAmount(view, req, rate);
  }

  // ---------------------------------------------------------------------------
  // The service calls, on the live objects

  /** `createBankAccount`: on success one new live account is stored under the
      next id and returned; on failure nothing is stored. */
  method CreateBankAccount(accounts: AccountRepository, bankAccounts: BankAccountRepository,
                           request: CreateBankAccountRequest)
    returns (r: Result<BankAccount, Error>)
    requires bankAccounts.Valid()
    modifies bankAccounts
    ensures bankAccounts.Valid()
    ensures var spec := NewBankAccount(accounts.View(), request);
            spec.Failure? ==> && r == Failure(spec.error)
                              && bankAccounts.rows == old(bankAccounts.rows)
                              && bankAccounts.nextId == old(bankAccounts.nextId)
    ensures var spec := NewBankAccount(accounts.View(), request);
            var id := old(bankAccounts.nextId);
            spec.Success? ==> && r.Success? && fresh(r.value) && r.value.id == Some(id)
                              && bankAccounts.nextId == id + 1
                              && bankAccounts.rows == old(bankAccounts.rows)[id := r.value]
                              && bankAccounts.View() == old(bankAccounts.View())[id := spec.value]
                              && IsLive(bankAccounts.View(), id)
  {
    if request.balance.Some? && request.balance.value < 0.0 {
      return Failure(NotPossibleCreateBankAccount(NegativeBalanceMessage));
    }

    var currency := CurrencyExists(request.currency);
    if currency.None? {
      return Failure(CurrencyDoesNotExist(UnknownCurrencyMessage));
    }

    if request.ownerId.None? {
      return Failure(NotPossibleCreateBankAccount(OwnerMandatoryMessage));
    }

    var ownerAccount := accounts.FindByIdAndDeletedIsFalse(request.ownerId.value);
    if ownerAccount.None? {
      return Failure(EntityNotFound(OwnerMissingMessage(request.ownerId.value)));
    }

    var bankAccount := Open(bankAccounts, request.ownerId.value, currency.value, request.balance.GetOr(0.0));
    r := Success(bankAccount);
  }

  /** The write of `createBankAccount`: a new live account, stored under the
      next id. */
  method Open(bankAccounts: BankAccountRepository, owner: int, currency: Currency, balance: real)
    returns (bankAccount: BankAccount)
    requires bankAccounts.Valid()
    modifies bankAccounts
    ensures bankAccounts.Valid() && fresh(bankAccount)
    ensures var id := old(bankAccounts.nextId);
            && bankAccount.id == Some(id) && bankAccounts.nextId == id + 1
            && bankAccounts.rows == old(bankAccounts.rows)[id := bankAccount]
            && bankAccounts.View() == old(bankAccounts.View())[id := BankAccountRow(owner, currency, balance, false)]
  {
    bankAccount := new BankAccount(owner, currency, balance);
    var _ := bankAccounts.Insert(bankAccount);
  }

  /** `getBankAccountById`: the live account stored under that id, or
      "Bank account with id N does not exist". */
  function GetBankAccountById(bankAccounts: BankAccountRepository, id: int): (r: Result<BankAccount, Error>)
    reads bankAccounts, bankAccounts.rows.Values
    ensures r.Success? <==> IsLive(bankAccounts.View(), id)
    ensures r.Success? ==> r.value == bankAccounts.rows[id] && !r.value.deleted
    ensures r.Failure? ==> r.error == EntityNotFound(BankAccountMissingMessage(id))
  {
    var found := bankAccounts.FindByIdAndDeletedIsFalse(id);
    if found.None? then Failure(EntityNotFound(BankAccountMissingMessage(id)))
    else Success(found.value)
  }

  /** `deleteAccountById`: soft-deletes one live account and answers true;
      afterwards the account is no longer found. Any other id is not found
      and nothing changes. */
  method DeleteAccountById(bankAccounts: BankAccountRepository, id: int) returns (r: Result<bool, Error>)
    requires bankAccounts.Valid()
    modifies bankAccounts.rows.Values
    ensures bankAccounts.Valid()
    ensures var spec := SoftDelete(old(bankAccounts.View()), id);
            && (spec.Success? ==> r == Success(true) && bankAccounts.View() == spec.value)
            && (spec.Failure? ==> r == Failure(spec.error) && bankAccounts.View() == old(bankAccounts.View()))
    ensures GetBankAccountById(bankAccounts, id).Failure?
  {
    var found := bankAccounts.FindByIdAndDeletedIsFalse(id);
    if found.None? {
      return Failure(EntityNotFound(BankAccountMissingMessage(id)));
    }
    ghost var view := bankAccounts.View();
    var bankAccount := found.value;
    bankAccount.SetDeleted(true);
    forall k | k in view
      ensures k in bankAccounts.View() && bankAccounts.View()[k] == SoftDelete(view, id).value[k]
    {
      if k != id {
        assert bankAccounts.rows[k].id == Some(k);
      }
    }
    assert bankAccounts.View() == SoftDelete(view, id).value;
    r := Success(true);
  }
}
