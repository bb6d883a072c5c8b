/** The persistent entities (the `model` package). Each is an object whose
    fields the services update in place through setters. An id is absent
    (Java's null) until the repository stores the entity and assigns one. */
module Model {
  import opened Wrappers
  import opened Currencies

  /** `ZonedDateTime`, as a number: the model only copies it around and never
      reads it. */
  type Timestamp = int

  /** `LocalDate` of a date of birth: stored and copied, never checked. */
  datatype Date = Date(year: int, month: int, day: int)

  /** An owner: a person holding zero or more bank accounts. */
  class Account {
    var id: Option<int>
    var firstName: string
    var lastName: string
    var email: string
    var dateOfBirth: Date
    var deleted: bool

    constructor (firstName: string, lastName: string, email: string, dateOfBirth: Date)
      ensures this.firstName == firstName && this.lastName == lastName
      ensures this.email == email && this.dateOfBirth == dateOfBirth
      ensures !deleted && id == None
    {
      this.id := None;
      this.firstName := firstName;
      this.lastName := lastName;
      this.email := email;
      this.dateOfBirth := dateOfBirth;
      this.deleted := false;
    }

    method SetId(id: int)
      modifies this`id
      ensures this.id == Some(id)
    {
      this.id := Some(id);
    }

    method SetDeleted(deleted: bool)
      modifies this`deleted
      ensures this.deleted == deleted
    {
      this.deleted := deleted;
    }
  }

  /** A balance-holding account in one currency. The owner is kept as the
      owner's id, the `owner_id` column the relation is stored in. */
  class BankAccount {
    var id: Option<int>
    var owner: int
    var currency: Currency
    var balance: real
    var deleted: bool

    /** A new bank account is live and holds exactly what it was given. */
    constructor (owner: int, currency: Currency, balance: real)
      ensures this.owner == owner && this.currency == currency && this.balance == balance
      ensures !deleted && id == None
    {
      this.id := None;
      this.owner := owner;
      this.currency := currency;
      this.balance := balance;
      this.deleted := false;
    }

    method SetId(id: int)
      modifies this`id
      ensures this.id == Some(id)
    {
      this.id := Some(id);
    }

    /** Changes the balance and nothing else. */
    method SetBalance(balance: real)
      modifies this`balance
      ensures this.balance == balance
      ensures id == old(id) && owner == old(owner) && currency == old(currency) && deleted == old(deleted)
    {
      this.balance := balance;
    }

    /** Changes the liveness flag and nothing else. */
    method SetDeleted(deleted: bool)
      modifies this`deleted
      ensures this.deleted == deleted
      ensures id == old(id) && owner == old(owner) && currency == old(currency) && balance == old(balance)
    {
      this.deleted := deleted;
    }

    /** Changes the currency and nothing else; no service calls it, but a
        ledger record reads its accounts' currency through it. */
    method SetCurrency(currency: Currency)
      modifies this`currency
      ensures this.currency == currency
      ensures id == old(id) && owner == old(owner) && balance == old(balance) && deleted == old(deleted)
    {
      this.currency := currency;
    }
  }

  /** A ledger record: one committed transfer. It refers to both accounts and
      snapshots their currencies at the moment it is built. */
  class Transaction {
    var id: Option<int>
    var fromAccount: BankAccount
    var toAccount: BankAccount
    var fromCurrency: Currency
    var toCurrency: Currency
    var amount: real
    var exchangeRate: real
    var timestamp: Timestamp

    constructor (fromAccount: BankAccount, toAccount: BankAccount, amount: real,
                 exchangeRate: real, timestamp: Timestamp)
      ensures this.fromAccount == fromAccount && this.toAccount == toAccount
      ensures fromCurrency == fromAccount.currency && toCurrency == toAccount.currency
      ensures this.amount == amount && this.exchangeRate == exchangeRate
      ensures this.timestamp == timestamp
      ensures id == None
    {
      this.id := None;
      this.fromAccount := fromAccount;
      this.toAccount := toAccount;
      this.fromCurrency := fromAccount.currency;
      this.toCurrency := toAccount.currency;
      this.amount := amount;
      this.exchangeRate := exchangeRate;
      this.timestamp := timestamp;
    }

    method SetId(id: int)
      modifies this`id
      ensures this.id == Some(id)
    {
      this.id := Some(id);
    }
  }
}
