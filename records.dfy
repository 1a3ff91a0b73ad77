/**
 * The rows of the shop's tables: the customer store, the dues ledger and
 * the append-only audit logs. Each datatype has the columns its table file
 * has; a missing timestamp (pandas' NaT, or the empty string the ledger
 * starts with) is `None`.
 */
module Records {
  import opened Wrappers

  /** Seconds on the shop's clock; the files hold them as `%Y-%m-%d %H:%M:%S`. */
  type Timestamp = int

  /** A calendar day, as `datetime.now().date()` gives it. */
  type Date = int

  /** An amount of money. The files hold floats; here there is no rounding. */
  type Amount = real

  const Active: string := "active"
  const Deleted: string := "deleted"
  const DefaultCategory: string := "Regular"
  const UnchangedPassword: string := "[unchanged]"
  const InvalidCredentials: string := "Invalid credentials"
  const CustomerLogin: string := "customer"

  /** A row of the customer store; `passwordHash` is the stored one-way hash. */
  datatype Customer = Customer(
    id: int, name: string, phone: string, email: string, address: string,
    due: Amount, category: string, status: string,
    lastUpdate: Timestamp, addedAt: Timestamp,
    username: string, passwordHash: string)

  /** A row of the dues ledger. */
  datatype DueEntry = DueEntry(
    id: int, name: string, phone: string, address: string,
    dueAmount: Amount, dueDate: Date, lastMessageDate: Option<Timestamp>)

  /** A row of the added-customers log. */
  datatype AddedRecord = AddedRecord(
    id: int, name: string, phone: string, email: string, address: string,
    due: Amount, lastUpdate: Timestamp, status: string, addedAt: Timestamp)

  /** A row of the updated-customers log. */
  datatype UpdatedRecord = UpdatedRecord(
    id: int, name: string, phone: string, email: string, address: string,
    due: Amount, lastUpdate: Timestamp, status: string,
    updatedDue: Amount, updatedAt: Timestamp)

  /** A row of the partial-payments log: `due` and `lastUpdate` are from before the payment. */
  datatype PartialRecord = PartialRecord(
    id: int, name: string, phone: string, email: string, address: string,
    due: Amount, lastUpdate: Timestamp, status: string,
    partialDue: Amount, partialAt: Timestamp)

  /** A row of the deleted-customers log. */
  datatype DeletedRecord = DeletedRecord(
    id: int, name: string, phone: string, email: string, address: string,
    due: Amount, lastUpdate: Timestamp, status: string, deletedAt: Timestamp)

  /** A row of the user-payments log; `username` is the acting user's. */
  datatype UserPaymentRecord = UserPaymentRecord(
    id: int, username: string, name: string,
    amountPaid: Amount, newDue: Amount, paymentDate: Timestamp)

  /** A row of the user-deleted-accounts log. */
  datatype UserDeletedRecord = UserDeletedRecord(
    id: int, username: string, name: string, deletedAt: Timestamp)

  /** A row of the sign-in log; `username` is as the user typed it. */
  datatype SigninRecord = SigninRecord(
    timestamp: Timestamp, customerId: int, username: string, name: string, loginType: string)

  /** The Python exceptions the modelled code can raise. */
  datatype PythonError = TypeError | NameError | AttributeError

  /**
   * A customer record handed back together with the plaintext password.
   * The source returns one dictionary whose `password` entry is the
   * plaintext; here `customer.passwordHash` still holds the stored hash
   * beside it, so a caller of the model can see the hash where the
   * source's caller cannot.
   */
  datatype Issued = Issued(customer: Customer, password: string)

  /** What `record_partial_payment` returns: the customer with the new due, and the two logged columns. */
  datatype PartialPayment = PartialPayment(customer: Customer, partialDue: Amount, partialAt: Timestamp)

  /** What `login_user` returns. */
  datatype LoginResult =
    | LoggedIn(customerId: int, name: string, due: Amount, email: string, phone: string)
    | LoginRefused(message: string)

  /** The ledger row `add_customer` appends for a new customer. */
  function NewDueEntry(c: Customer, today: Date): (e: DueEntry)
    ensures e.id == c.id && e.name == c.name && e.phone == c.phone && e.address == c.address
    ensures e.dueAmount == c.due && e.dueDate == today && e.lastMessageDate.None?
  {
    DueEntry(c.id, c.name, c.phone, c.address, c.due, today, None)
  }

  /** The added-log row: the new customer's columns, status "active". */
  function AddedRecordOf(c: Customer): (r: AddedRecord)
    ensures r.id == c.id && r.name == c.name && r.phone == c.phone && r.email == c.email && r.address == c.address
    ensures r.due == c.due && r.status == Active
    ensures r.lastUpdate == c.lastUpdate && r.addedAt == c.addedAt
  {
    AddedRecord(c.id, c.name, c.phone, c.email, c.address, c.due, c.lastUpdate, Active, c.addedAt)
  }

  /** `c` is the row after the update. */
  function UpdatedRecordOf(c: Customer, newDue: Amount, now: Timestamp): (r: UpdatedRecord)
    ensures r.id == c.id && r.name == c.name && r.phone == c.phone && r.email == c.email && r.address == c.address
    ensures r.due == c.due && r.lastUpdate == c.lastUpdate && r.status == c.status
    ensures r.updatedDue == newDue && r.updatedAt == now
  {
    UpdatedRecord(c.id, c.name, c.phone, c.email, c.address, c.due, c.lastUpdate, c.status, newDue, now)
  }

  /** `c` is the row before the payment. */
  function PartialRecordOf(c: Customer, newDue: Amount, now: Timestamp): (r: PartialRecord)
    ensures r.id == c.id && r.name == c.name && r.phone == c.phone && r.email == c.email && r.address == c.address
    ensures r.due == c.due && r.lastUpdate == c.lastUpdate && r.status == c.status
    ensures r.partialDue == newDue && r.partialAt == now
  {
    PartialRecord(c.id, c.name, c.phone, c.email, c.address, c.due, c.lastUpdate, c.status, newDue, now)
  }

  /** The deleted-log row: the customer's columns, status "deleted". */
  function DeletedRecordOf(c: Customer, now: Timestamp): (r: DeletedRecord)
    ensures r.id == c.id && r.name == c.name && r.phone == c.phone && r.email == c.email && r.address == c.address
    ensures r.due == c.due && r.lastUpdate == c.lastUpdate
    ensures r.status == Deleted && r.deletedAt == now
  {
    DeletedRecord(c.id, c.name, c.phone, c.email, c.address, c.due, c.lastUpdate, Deleted, now)
  }
}
