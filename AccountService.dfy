/** Opening, finding and closing owners' accounts (service/AccountService.java).
    `NewAccount`, `SoftDeleteOwner` and `Cascade` specify, over the tables as
    values, what `createAccount` and `deleteAccountById` decide and write;
    the methods are the imperative service calls, proved to do exactly that.
    Closing an owner soft-deletes every bank account the owner holds. */
module AccountService {
  import opened Wrappers
  import opened Collections
  import opened Strings
  import opened Currencies
  import opened Errors
  import opened Model
  import opened Repositories
  import opened ExchangeRates
  import opened TransactionService
  import opened BankAccountService

  /** The request body; each field may be absent (Java's null). */
  datatype CreateAccountRequest = CreateAccountRequest(firstName: Option<string>, lastName: Option<string>,
                                                       email: Option<string>, dateOfBirth: Option<Date>)

  const MissingDataMessage := "Necessary data is missing to create a new account"
  const EmailTakenMessage := "Email is already taken"

  predicate Complete(req: CreateAccountRequest) {
    req.firstName.Some? && req.lastName.Some? && req.email.Some? && req.dateOfBirth.Some?
  }

  /** The checks of `createAccount`, in the order the method runs them, and the
      row it stores when both pass: every field present, then an email no stored
      account has, up to letter case. */
  function NewAccount(owners: map<int, AccountRow>, req: CreateAccountRequest) : (r: Result<AccountRow, Error>)
    ensures !Complete(req) ==> r == Failure(NotPossibleCreateAccount(MissingDataMessage))
    ensures Complete(req) && EmailInUse(owners, req.email.value) ==> r == Failure(EmailTaken(EmailTakenMessage))
    ensures r.Success? <==> Complete(req) && !EmailInUse(owners, req.email.value)
    ensures r.Success? ==> && r.value.firstName == req.firstName.value
                           && r.value.lastName == req.lastName.value
                           && r.value.email == req.email.value
                           && r.value.dateOfBirth == req.dateOfBirth.value
                           && !r.value.deleted
  {
    if !Complete(req) then Failure(NotPossibleCreateAccount(MissingDataMessage))
    else if EmailInUse(owners, req.email.value) then Failure(EmailTaken(EmailTakenMessage))
    else Success(AccountRow(req.firstName.value, req.lastName.value, req.email.value,
                            req.dateOfBirth.value, false))
  }

  /** No two stored accounts have the same email up to letter case. */
  ghost predicate EmailsUnique(owners: map<int, AccountRow>) {
    forall i, j :: i in owners && j in owners && EqualsIgnoreCase(owners[i].email, owners[j].email) ==> i == j
  }

  /** Opening accounts keeps emails unique: a new account's email collides
      with no stored one. */
  lemma NewAccountKeepsEmailsUnique(owners: map<int, AccountRow>, req: CreateAccountRequest, id: int)
    requires EmailsUnique(owners) && id !in owners && NewAccount(owners, req).Success?
    ensures EmailsUnique(owners[id := NewAccount(owners, req).value])
  {
  }

  /** The email check ignores letter case and liveness: the upper-case spelling
      of any stored email, even a soft-deleted account's, is taken. */
  lemma UpperCaseOfStoredEmailTaken(owners: map<int, AccountRow>, req: CreateAccountRequest, k: int)
    requires k in owners && Complete(req) && req.email.value == UpperCase(owners[k].email)
    ensures NewAccount(owners, req) == Failure(EmailTaken(EmailTakenMessage))
  {
    UpperCaseIdempotent(owners[k].email);
    assert EqualsIgnoreCase(owners[k].email, req.email.value);
  }

  /** The owner half of `deleteAccountById` on the table as values: a live
      owner becomes soft-deleted and no other owner changes; any other id is
      not found. */
  function SoftDeleteOwner(owners: map<int, AccountRow>, id: int): (r: Result<map<int, AccountRow>, Error>)
    ensures r.Success? <==> IsLiveOwner(owners, id)
    ensures r.Failure? ==> r.error == EntityNotFound(AccountMissingMessage(id))
    ensures r.Success? ==> && r.value.Keys == owners.Keys
                           && r.value[id] == owners[id].(deleted := true)
                           && !IsLiveOwner(r.value, id)
                           && (forall k :: k in owners && k != id ==> r.value[k] == owners[k])
  {
    if !IsLiveOwner(owners, id) then Failure(EntityNotFound(AccountMissingMessage(id)))
    else Success(owners[id := owners[id].(deleted := true)])
  }

  /** The bank-account half: every account the owner holds, live or not,
      is marked deleted; every other account is left as it was. */
  function Cascade(view: map<int, BankAccountRow>, owner: int): (r: map<int, BankAccountRow>)
    ensures r.Keys == view.Keys
    ensures forall k :: k in view && view[k].owner == owner ==> !IsLive(r, k)
    ensures forall k :: k in view && view[k].owner != owner ==> r[k] == view[k]
    ensures forall k :: k in view ==> r[k] == view[k].(deleted := r[k].deleted)
  {
    map k | k in view :: if view[k].owner == owner then view[k].(deleted := true) else view[k]
  }

  /** After an owner is closed, no transfer from or to any of the owner's
      accounts between two distinct accounts goes through. */
  lemma CascadeBlocksTransfers(view: map<int, BankAccountRow>, owner: int,
                               req: CreateNewTransactionRequest, respond: Currency -> HttpResponse)
    requires req.from != req.to
    requires (req.from in view && view[req.from].owner == owner) ||
             (req.to in view && view[req.to].owner == owner)
    ensures Price(Cascade(view, owner), req, respond) == Failure(EntityNotFound(AccountMissingMessage(req.from)))
  {
    MissingAccountRefused(Cascade(view, owner), req, respond);
  }

  /** Closing an owner keeps every live bank account's owner live: the only
      owner that stops being live holds no live account any more. */
  lemma CloseOwnerKeepsOwnersLive(owners: map<int, AccountRow>, view: map<int, BankAccountRow>, id: int)
    requires OwnersLive(owners, view) && SoftDeleteOwner(owners, id).Success?
    ensures OwnersLive(SoftDeleteOwner(owners, id).value, Cascade(view, id))
  {
    var owners', view' := SoftDeleteOwner(owners, id).value, Cascade(view, id);
    forall k | IsLive(view', k)
      ensures IsLiveOwner(owners', view'[k].owner)
    {
      assert view'[k] == view[k];
    }
  }

  /** Opening an owner's account under a fresh id keeps every live bank
      account's owner live. */
  lemma NewAccountKeepsOwnersLive(owners: map<int, AccountRow>, view: map<int, BankAccountRow>,
                                  req: CreateAccountRequest, id: int)
    requires OwnersLive(owners, view) && id !in owners && NewAccount(owners, req).Success?
    ensures OwnersLive(owners[id := NewAccount(owners, req).value], view)
  {
    var owners' := owners[id := NewAccount(owners, req).value];
    forall k | IsLive(view, k)
      ensures IsLiveOwner(owners', view[k].owner)
    {
      assert IsLiveOwner(owners, view[k].owner);
    }
  }

  // ---------------------------------------------------------------------------
  // The service calls, on the live objects

  /** `createAccount`: on success one new live account is stored under the
      next id and returned; on failure nothing is stored. */
  method CreateAccount(accounts: AccountRepository, request: CreateAccountRequest)
    returns (r: Result<Account, Error>)
    requires accounts.Valid()
    modifies accounts
    ensures accounts.Valid()
    ensures var spec := NewAccount(old(accounts.View()), request);
            spec.Failure? ==> && r == Failure(spec.error)
                              && accounts.rows == old(accounts.rows)
                              && accounts.nextId == old(accounts.nextId)
    ensures var spec := NewAccount(old(accounts.View()), request);
            var id := old(accounts.nextId);
            spec.Success? ==> && id !in old(accounts.rows)
                              && r.Success? && fresh(r.value) && r.value.id == Some(id)
                              && accounts.nextId == id + 1
                              && accounts.rows == old(accounts.rows)[id := r.value]
                              && accounts.View() == old(accounts.View())[id := spec.value]
  {
    if request.firstName.None? || request.lastName.None? || request.email.None? || request.dateOfBirth.None? {
      return Failure(NotPossibleCreateAccount(MissingDataMessage));
    }

    var ownerEmail := accounts.ExistsByEmailIgnoreCase(request.email.value);
    if ownerEmail {
      return Failure(EmailTaken(EmailTakenMessage));
    }

    var newAccount := new Account(request.firstName.value, request.lastName.value, request.email.value,
                                  request.dateOfBirth.value);
    var _ := accounts.Insert(newAccount);
    r := Success(newAccount);
  }

  /** `getAccountById`: the live account stored under that id, or
      "Account with id N does not exist". */
  function GetAccountById(accounts: AccountRepository, id: int): (r: Result<Account, Error>)
    reads accounts, accounts.rows.Values
    ensures r.Success? <==> IsLiveOwner(accounts.View(), id)
    ensures r.Success? ==> r.value == accounts.rows[id] && !r.value.deleted
    ensures r.Failure? ==> r.error == EntityNotFound(AccountMissingMessage(id))
  {
    var found := accounts.FindByIdAndDeletedIsFalse(id);
    if found.None? then Failure(EntityNotFound(AccountMissingMessage(id)))
    else Success(found.value)
  }

  /** `deleteAccountById`: a live owner is closed, after each bank account it
      holds is marked deleted one at a time; any other id is not found and
      nothing changes. */
  method DeleteAccountById(accounts: AccountRepository, bankAccounts: BankAccountRepository, id: int)
    returns (r: Result<(), Error>)
    requires accounts.Valid() && bankAccounts.Valid()
    modifies accounts.rows.Values, bankAccounts.rows.Values
    ensures accounts.Valid() && bankAccounts.Valid()
    ensures var spec := SoftDeleteOwner(old(accounts.View()), id);
            spec.Failure? ==> && r == Failure(spec.error)
                              && accounts.View() == old(accounts.View())
                              && bankAccounts.View() == old(bankAccounts.View())
    ensures var spec := SoftDeleteOwner(old(accounts.View()), id);
            spec.Success? ==> && r == Success(())
                              && accounts.View() == spec.value
                              && bankAccounts.View() == Cascade(old(bankAccounts.View()), id)
  {
    var found := accounts.FindByIdAndDeletedIsFalse(id);
    if found.None? {
      return Failure(EntityNotFound(AccountMissingMessage(id)));
    }
    var accountById := found.value;
    ghost var owners := accounts.View();
    CascadeToBankAccounts(bankAccounts, accountById.id.value);
    assert accounts.Valid() && accounts.View() == owners;

    ghost var cascaded := bankAccounts.View();
    CloseOwner(accounts, id, accountById);
    assert bankAccounts.View() == cascaded;
    r := Success(());
  }

  /** The owner write of `deleteAccountById`: the live owner stored under
      `id` is marked deleted and no other owner changes. */
  method CloseOwner(accounts: AccountRepository, id: int, accountById: Account)
    requires accounts.Valid() && IsLiveOwner(accounts.View(), id) && accounts.rows[id] == accountById
    modifies accountById`deleted
    ensures accounts.Valid()
    ensures SoftDeleteOwner(old(accounts.View()), id).Success?
    ensures accounts.View() == SoftDeleteOwner(old(accounts.View()), id).value
  {
    ghost var owners := accounts.View();
    accountById.SetDeleted(true);
    forall k | k in owners
      ensures k in accounts.View() && accounts.View()[k] == SoftDeleteOwner(owners, id).value[k]
    {
      if k != id {
        assert accounts.rows[k].id == Some(k);
      }
    }
    assert accounts.View() == SoftDeleteOwner(owners, id).value;
  }

  /** The loop of `deleteAccountById`: finds every bank account the owner
      holds, deleted or not, and marks each deleted in turn. */
  method CascadeToBankAccounts(bankAccounts: BankAccountRepository, owner: int)
    requires bankAccounts.Valid()
    modifies bankAccounts.rows.Values
    ensures bankAccounts.Valid()
    ensures bankAccounts.View() == Cascade(old(bankAccounts.View()), owner)
  {
    ghost var view := bankAccounts.View();
    var allBankAccountsByOwnerId := bankAccounts.FindAllByOwnerId(owner);
    var remaining := allBankAccountsByOwnerId;
    while remaining != {}
      invariant remaining <= allBankAccountsByOwnerId
      invariant forall k | k in bankAccounts.rows ::
                  && bankAccounts.rows[k].id == old(bankAccounts.rows[k].id)
                  && bankAccounts.rows[k].owner == old(bankAccounts.rows[k].owner)
                  && bankAccounts.rows[k].currency == old(bankAccounts.rows[k].currency)
                  && bankAccounts.rows[k].balance == old(bankAccounts.rows[k].balance)
      invariant forall k | k in bankAccounts.rows ::
                  bankAccounts.rows[k].deleted ==
                    (old(bankAccounts.rows[k].deleted) || k in allBankAccountsByOwnerId - remaining)
      decreases remaining
    {
      NonEmptyHasMember(remaining);
      var k :| k in remaining;
      bankAccounts.rows[k].SetDeleted(true);
      remaining := remaining - {k};
    }
    forall k | k in view
      ensures k in bankAccounts.View() && bankAccounts.View()[k] == Cascade(view, owner)[k]
    {
    }
    assert bankAccounts.View() == Cascade(view, owner);
  }
}
