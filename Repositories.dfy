/** In-memory stand-ins for the Spring Data repositories: each maps an id to
    the stored entity object and hands out ids in increasing order, as an
    identity column does. `Valid()` says every stored object carries its own
    key as its id, so two keys never share an object. `View()` is the table
    as values, which is what the services' specifications talk about. */
module Repositories {
  import opened Wrappers
  import opened Currencies
  import opened Strings
  import opened Model

  datatype AccountRow = AccountRow(firstName: string, lastName: string, email: string,
                                   dateOfBirth: Date, deleted: bool)

  datatype BankAccountRow = BankAccountRow(owner: int, currency: Currency, balance: real,
                                           deleted: bool)

  datatype LedgerRow = LedgerRow(fromAccount: BankAccount, toAccount: BankAccount,
                                 fromCurrency: Currency, toCurrency: Currency,
                                 amount: real, exchangeRate: real, timestamp: Timestamp)

  /** What `findByIdAndDeletedIsFalse` finds, on a table as values. */
  predicate IsLiveOwner(view: map<int, AccountRow>, id: int) {
    id in view && !view[id].deleted
  }

  predicate IsLive(view: map<int, BankAccountRow>, id: int) {
    id in view && !view[id].deleted
  }

  /** What `findByEmailIgnoreCase` finds, on a table as values: soft-deleted
      accounts included. */
  predicate EmailInUse(view: map<int, AccountRow>, email: string) {
    exists k :: k in view && EqualsIgnoreCase(view[k].email, email)
  }

  class AccountRepository {
    var rows: map<int, Account>
    var nextId: int

    /** An empty table whose identity column starts at 1. */
    constructor ()
      ensures Valid() && rows == map[] && nextId == 1
    {
      rows := map[];
      nextId := 1;
    }

    ghost predicate Valid()
      reads this, rows.Values
    {
      forall k | k in rows :: rows[k].id == Some(k) && k < nextId
    }

    ghost function View(): map<int, AccountRow>
      reads this, rows.Values
    {
      map k | k in rows :: AccountRow(rows[k].firstName, rows[k].lastName, rows[k].email,
                                      rows[k].dateOfBirth, rows[k].deleted)
    }

    /** `findByIdAndDeletedIsFalse` */
    function FindByIdAndDeletedIsFalse(id: int): (r: Option<Account>)
      reads this, rows.Values
      ensures r.Some? <==> IsLiveOwner(View(), id)
      ensures r.Some? ==> r.value == rows[id]
    {
      if id in rows && !rows[id].deleted then Some(rows[id]) else None
    }

    /** `findByEmailIgnoreCase(email).isPresent()`: soft-deleted accounts are
        searched too. */
    function ExistsByEmailIgnoreCase(email: string): (r: bool)
      reads this, rows.Values
      ensures r <==> EmailInUse(View(), email)
    {
      var found := exists k :: k in rows && EqualsIgnoreCase(rows[k].email, email);
      assert found ==> EmailInUse(View(), email) by {
        if found {
          var k :| k in rows && EqualsIgnoreCase(rows[k].email, email);
          assert View()[k].email == rows[k].email;
        }
      }
      assert EmailInUse(View(), email) ==> found by {
        if EmailInUse(View(), email) {
          var k :| k in View() && EqualsIgnoreCase(View()[k].email, email);
          assert rows[k].email == View()[k].email;
        }
      }
      found
    }

    /** `save` of a new entity: assigns the next id and stores it. */
    method Insert(a: Account) returns (id: int)
      requires Valid() && a.id == None
      modifies this, a`id
      ensures Valid()
      ensures id == old(nextId) && a.id == Some(id) && nextId == id + 1
      ensures rows == old(rows)[id := a]
      ensures View() == old(View())[id := AccountRow(a.firstName, a.lastName, a.email,
                                                     a.dateOfBirth, a.deleted)]
    {
      id := nextId;
      a.SetId(id);
      rows := rows[id := a];
      nextId := nextId + 1;
    }
  }

  class BankAccountRepository {
    var rows: map<int, BankAccount>
    var nextId: int

    /** An empty table whose identity column starts at 1. */
    constructor ()
      ensures Valid() && rows == map[] && nextId == 1
    {
      rows := map[];
      nextId := 1;
    }

    ghost predicate Valid()
      reads this, rows.Values
    {
      forall k | k in rows :: rows[k].id == Some(k) && k < nextId
    }

    ghost function View(): map<int, BankAccountRow>
      reads this, rows.Values
    {
      map k | k in rows :: BankAccountRow(rows[k].owner, rows[k].currency, rows[k].balance,
                                          rows[k].deleted)
    }

    /** `findByIdAndDeletedIsFalse` */
    function FindByIdAndDeletedIsFalse(id: int): (r: Option<BankAccount>)
      reads this, rows.Values
      ensures r.Some? <==> IsLive(View(), id)
      ensures r.Some? ==> r.value == rows[id]
    {
      if id in rows && !rows[id].deleted then Some(rows[id]) else None
    }

    /** `findAllByOwnerId`, as the set of ids found: soft-deleted rows included. */
    function FindAllByOwnerId(owner: int): (r: set<int>)
      reads this, rows.Values
      ensures forall k :: k in r <==> k in View() && View()[k].owner == owner
    {
      set k | k in rows && rows[k].owner == owner
    }

    /** `save` of a new entity: assigns the next id and stores it. */
    method Insert(b: BankAccount) returns (id: int)
      requires Valid() && b.id == None
      modifies this, b`id
      ensures Valid()
      ensures id == old(nextId) && b.id == Some(id) && nextId == id + 1
      ensures rows == old(rows)[id := b]
      ensures View() == old(View())[id := BankAccountRow(b.owner, b.currency, b.balance, b.deleted)]
    {
      id := nextId;
      b.SetId(id);
      rows := rows[id := b];
      nextId := nextId + 1;
    }
  }

  class TransactionRepository {
    var rows: map<int, Transaction>
    var nextId: int

    /** An empty table whose identity column starts at 1. */
    constructor ()
      ensures Valid() && rows == map[] && nextId == 1
    {
      rows := map[];
      nextId := 1;
    }

    ghost predicate Valid()
      reads this, rows.Values
    {
      forall k | k in rows :: rows[k].id == Some(k) && k < nextId
    }

    ghost function View(): map<int, LedgerRow>
      reads this, rows.Values
    {
      map k | k in rows :: LedgerRow(rows[k].fromAccount, rows[k].toAccount,
                                     rows[k].fromCurrency, rows[k].toCurrency,
                                     rows[k].amount, rows[k].exchangeRate, rows[k].timestamp)
    }

    /** `findById` */
    function FindById(id: int): (r: Option<Transaction>)
      reads this
      ensures r.Some? <==> id in rows
      ensures r.Some? ==> r.value == rows[id]
    {
      if id in rows then Some(rows[id]) else None
    }

    /** `save` of a new entity: assigns the next id and appends it. */
    method Insert(t: Transaction) returns (id: int)
      requires Valid() && t.id == None
      modifies this, t`id
      ensures Valid()
      ensures id == old(nextId) && t.id == Some(id) && nextId == id + 1
      ensures rows == old(rows)[id := t]
      ensures View() == old(View())[id := LedgerRow(t.fromAccount, t.toAccount,
                                                    t.fromCurrency, t.toCurrency,
                                                    t.amount, t.exchangeRate, t.timestamp)]
    {
      id := nextId;
      t.SetId(id);
      rows := rows[id := t];
      nextId := nextId + 1;
    }
  }
}
