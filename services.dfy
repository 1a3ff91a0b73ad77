/**
 * The due-tracking ledger: an object holding the customer store, the dues
 * ledger and the seven audit logs, with one method per service operation.
 *
 * Each table file is a field. Loading a table, changing it and writing it
 * back is an assignment to the field; appending a row to a log file is
 * `log := log + [row]`. The clock and the four random password digits are
 * parameters; the credential authority is the function `hash` given at
 * construction.
 */
module Services {
  import opened Wrappers
  import opened Records
  import opened Credentials
  import opened Tables
  import opened Authentication
  import opened Activity

  /** A `reset_credentials` argument counts only when Python finds it true: not `None`, not `""`. */
  predicate Supplied(arg: Option<string>) {
    arg.Some? && arg.value != ""
  }

  /** The deleted-log rows `delete_all_customers` appends, one per customer, in store order. */
  function DeletedRecords(cs: seq<Customer>, now: Timestamp): (r: seq<DeletedRecord>)
    ensures |r| == |cs|
    ensures forall i :: 0 <= i < |cs| ==> r[i] == DeletedRecordOf(cs[i], now)
  {
    seq(|cs|, i requires 0 <= i < |cs| => DeletedRecordOf(cs[i], now))
  }

  /** The concatenation of the tables in `logs`. */
  function Flatten(logs: seq<seq<ActivityRow>>): seq<ActivityRow> {
    if logs == [] then [] else Flatten(logs[..|logs| - 1]) + logs[|logs| - 1]
  }

  /** The four admin logs as the rows `get_recent_activity` loads, in load order. */
  function AdminLogs(added: seq<AddedRecord>, updated: seq<UpdatedRecord>,
                     partial: seq<PartialRecord>, deleted: seq<DeletedRecord>): (logs: seq<seq<ActivityRow>>)
    ensures |logs| == |ColumnOrder|
    ensures Flatten(logs) == Combined(added, updated, partial, deleted)
  {
    var logs := [AddedRows(added), UpdatedRows(updated), PartialRows(partial), DeletionRows(deleted)];
    assert logs[..1][..0] == [];
    assert Flatten(logs[..1]) == logs[0];
    assert logs[..2][..1] == logs[..1];
    assert Flatten(logs[..2]) == logs[0] + logs[1];
    assert logs[..3][..2] == logs[..2];
    assert Flatten(logs[..3]) == logs[0] + logs[1] + logs[2];
    assert logs[..4][..3] == logs[..3];
    assert logs[..4] == logs;
    logs
  }

  /** The column picked by the first non-empty log is the one `SortColumn` names. */
  lemma SortColumnIsFirstNonEmpty(added: seq<AddedRecord>, updated: seq<UpdatedRecord>,
                                  partial: seq<PartialRecord>, deleted: seq<DeletedRecord>, k: int)
    requires 0 <= k < |ColumnOrder|
    requires AdminLogs(added, updated, partial, deleted)[k] != []
    requires forall j :: 0 <= j < k ==> AdminLogs(added, updated, partial, deleted)[j] == []
    ensures SortColumn(added, updated, partial, deleted) == Some(ColumnOrder[k])
  {
    var logs := AdminLogs(added, updated, partial, deleted);
    assert |logs[0]| == |added| && |logs[1]| == |updated| && |logs[2]| == |partial| && |logs[3]| == |deleted|;
  }

  /** Without a non-empty log there is nothing to report. */
  lemma NoAdminLogs(added: seq<AddedRecord>, updated: seq<UpdatedRecord>,
                    partial: seq<PartialRecord>, deleted: seq<DeletedRecord>)
    requires forall j :: 0 <= j < |ColumnOrder| ==> AdminLogs(added, updated, partial, deleted)[j] == []
    ensures Combined(added, updated, partial, deleted) == []
  {
    var logs := AdminLogs(added, updated, partial, deleted);
    assert |logs[0]| == |added| && |logs[1]| == |updated| && |logs[2]| == |partial| && |logs[3]| == |deleted|;
  }

  class Shop {
    /** The credential authority's one-way hash. */
    const hash: string -> string

    /** customers.csv */
    var customers: seq<Customer>
    /** dues.csv */
    var dues: seq<DueEntry>
    /** added_customers.csv */
    var addedLog: seq<AddedRecord>
    /** updated_customers.csv */
    var updatedLog: seq<UpdatedRecord>
    /** partial_customers.csv */
    var partialLog: seq<PartialRecord>
    /** deleted_customers.csv */
    var deletedLog: seq<DeletedRecord>
    /** user_payment_updated.csv */
    var userPaymentLog: seq<UserPaymentRecord>
    /** user_account_deleted.csv */
    var userDeletedLog: seq<UserDeletedRecord>
    /** signin_logs.csv */
    var signinLog: seq<SigninRecord>

    /** Ids are unique and the ledger mirrors the store row by row. */
    ghost predicate Valid()
      reads this
    {
      Consistent(customers, dues)
    }

    /** A shop whose files do not exist yet. */
    constructor (hash: string -> string)
      ensures this.hash == hash
      ensures customers == [] && dues == []
      ensures addedLog == [] && updatedLog == [] && partialLog == [] && deletedLog == []
      ensures userPaymentLog == [] && userDeletedLog == [] && signinLog == []
      ensures Valid()
    {
      this.hash := hash;
      customers, dues := [], [];
      addedLog, updatedLog, partialLog, deletedLog := [], [], [], [];
      userPaymentLog, userDeletedLog, signinLog := [], [], [];
    }

    /** `get_all_customers(active_only)`. */
    method GetAllCustomers(activeOnly: bool := false) returns (r: seq<Customer>)
      ensures r == ListCustomers(customers, activeOnly)
      ensures !activeOnly ==> r == customers
      ensures activeOnly ==> forall c :: c in r <==> c in customers && c.status == Active
    {
      r := ListCustomers(customers, activeOnly);
    }

    /**
     * `add_customer`. The new customer gets the next id, status "active",
     * the generated username and the hash of the generated password; one row
     * is appended to the store, the added log and the ledger. The plaintext
     * password is only returned.
     *
     * The source calls `_generate_credentials()` without the name (and that
     * function uses `re` without importing it), so as written every call
     * raises before anything is saved; this method does what the signature
     * and docstring of `_generate_credentials` say: credentials from `name`.
     */
    method AddCustomer(name: string, phone: string, address: string, due: Amount,
                       digits: string, now: Timestamp, today: Date,
                       category: string := DefaultCategory, email: string := "")
      returns (issued: Issued)
      requires IsFourDigits(digits)
      modifies this`customers, this`dues, this`addedLog
      ensures issued.customer == Customer(NextId(old(customers)), name, phone, email, address, due, category,
                                          Active, now, now, Username(name), hash(Password(name, digits)))
      ensures issued.password == Password(name, digits)
      ensures forall i :: 0 <= i < |old(customers)| ==> old(customers)[i].id < issued.customer.id
      ensures customers == old(customers) + [issued.customer]
      ensures addedLog == old(addedLog) + [AddedRecordOf(issued.customer)]
      ensures dues == old(dues) + [NewDueEntry(issued.customer, today)]
      ensures old(Valid()) ==> Valid()
    {
      ghost var wasValid := Valid();
      var cs0, ds0 := customers, dues;
      var newId := NextId(customers);
      var (username, password) := GenerateCredentials(name, digits);
      var cust := Customer(newId, name, phone, email, address, due, category,
                           Active, now, now, username, hash(password));
      customers := customers + [cust];
      addedLog := addedLog + [AddedRecordOf(cust)];
      dues := dues + [NewDueEntry(cust, today)];
      if wasValid {
        AddKeepsConsistent(cs0, ds0, cust, today);
      }
      issued := Issued(cust, password);
    }

    /**
     * `reset_credentials`. An absent id gives `None`. Otherwise the supplied
     * username and the hash of the supplied password, with `last_update`,
     * are written to the customer's row; with neither supplied the store is
     * untouched. The returned password is the plaintext one, or
     * "[unchanged]".
     */
    method ResetCredentials(id: int, newUsername: Option<string>, newPassword: Option<string>, now: Timestamp)
      returns (r: Option<Issued>)
      modifies this`customers
      ensures r.Some? <==> HasId(old(customers), id)
      ensures r.None? ==> customers == old(customers)
      ensures r.Some? ==> r.value.password == if Supplied(newPassword) then newPassword.value else UnchangedPassword
      ensures r.Some? && !Supplied(newUsername) && !Supplied(newPassword) ==>
                customers == old(customers) && r.value.customer == Lookup(old(customers), id).value
      ensures r.Some? && (Supplied(newUsername) || Supplied(newPassword)) ==>
                var u := if Supplied(newUsername) then Some(newUsername.value) else None;
                var h := if Supplied(newPassword) then Some(hash(newPassword.value)) else None;
                && customers == SetCredentials(old(customers), id, u, h, now)
                && r.value.customer == WithCredentials(Lookup(old(customers), id).value, u, h, now)
      ensures old(Valid()) ==> Valid()
    {
      if !HasId(customers, id) {
        return None;
      }
      var cust := Lookup(customers, id).value;
      var u := if Supplied(newUsername) then Some(newUsername.value) else None;
      var h := if Supplied(newPassword) then Some(hash(newPassword.value)) else None;
      var password := if Supplied(newPassword) then newPassword.value else UnchangedPassword;
      if u.Some? || h.Some? {
        if Valid() {
          SetCredentialsKeepsConsistent(customers, dues, id, u, h, now);
        }
        customers := SetCredentials(customers, id, u, h, now);
        r := Some(Issued(WithCredentials(cust, u, h, now), password));
      } else {
        r := Some(Issued(cust, password));
      }
    }

    /**
     * `update_due`. An absent id gives `None` and changes nothing. Otherwise
     * every row with the id gets the new due and `last_update`, one row is
     * appended to the updated log, and the ledger takes the same due.
     */
    method UpdateDue(id: int, newDue: Amount, now: Timestamp) returns (r: Option<Customer>)
      modifies this`customers, this`dues, this`updatedLog
      ensures r.Some? <==> HasId(old(customers), id)
      ensures r.None? ==> customers == old(customers) && dues == old(dues) && updatedLog == old(updatedLog)
      ensures r.Some? ==>
                && r.value == Lookup(old(customers), id).value.(due := newDue, lastUpdate := now)
                && customers == SetDue(old(customers), id, newDue, now)
                && Lookup(customers, id) == r
                && updatedLog == old(updatedLog) + [UpdatedRecordOf(r.value, newDue, now)]
                && dues == SetLedgerDue(old(dues), id, newDue, now)
      ensures old(Valid()) ==> Valid()
    {
      if !HasId(customers, id) {
        return None;
      }
      LookupAfterSetDue(customers, id, newDue, now);
      if Valid() {
        SetDueKeepsConsistent(customers, dues, id, newDue, now, now);
      }
      customers := SetDue(customers, id, newDue, now);
      var cust := Lookup(customers, id).value;
      updatedLog := updatedLog + [UpdatedRecordOf(cust, newDue, now)];
      UpdateDueRecord(id, newDue, None, now);
      r := Some(cust);
    }

    /**
     * `update_due_record`: the ledger rows with the id get the new due and
     * `last_message_date` (the given date, or now). An id the ledger does
     * not have is silently ignored.
     */
    method UpdateDueRecord(id: int, newDue: Amount, lastMessageDate: Option<Timestamp>, now: Timestamp)
      modifies this`dues
      ensures dues == SetLedgerDue(old(dues), id, newDue, lastMessageDate.GetOr(now))
      ensures !LedgerHasId(old(dues), id) ==> dues == old(dues)
    {
      if !LedgerHasId(dues, id) {
        return;
      }
      dues := SetLedgerDue(dues, id, newDue, lastMessageDate.GetOr(now));
    }

    /**
     * `record_partial_payment`. An absent id gives `None` and changes
     * nothing. Otherwise the new due is the current due minus `amount`
     * (possibly negative); the store and the ledger take it, and the partial
     * log records the due before the payment next to the new one.
     */
    method RecordPartialPayment(id: int, amount: Amount, now: Timestamp) returns (r: Option<PartialPayment>)
      modifies this`customers, this`dues, this`partialLog
      ensures r.Some? <==> HasId(old(customers), id)
      ensures r.None? ==> customers == old(customers) && dues == old(dues) && partialLog == old(partialLog)
      ensures r.Some? ==> r.value.partialDue == Lookup(old(customers), id).value.due - amount
      ensures r.Some? ==> r.value.partialAt == now
      ensures r.Some? ==> r.value.customer == Lookup(old(customers), id).value.(due := r.value.partialDue)
      ensures r.Some? ==> customers == PayDown(old(customers), id, amount, now)
      ensures r.Some? ==> Lookup(customers, id).value.due == r.value.partialDue
      ensures r.Some? ==> dues == SetLedgerDue(old(dues), id, r.value.partialDue, now)
      ensures r.Some? ==> partialLog == old(partialLog) + [PartialRecordOf(Lookup(old(customers), id).value, r.value.partialDue, now)]
      ensures old(Valid()) ==> Valid()
    {
      if !HasId(customers, id) {
        return None;
      }
      ghost var cs0, ds0, valid0 := customers, dues, Valid();
      var cust := Lookup(customers, id).value;
      var newDue := DueAfter(customers, id, amount);
      PayDownSubtracts(customers, id, amount, now);
      if valid0 {
        SetDueKeepsConsistent(cs0, ds0, id, newDue, now, now);
      }
      customers := PayDown(customers, id, amount, now);
      partialLog := partialLog + [PartialRecordOf(cust, newDue, now)];
      UpdateDueRecord(id, newDue, Some(now), now);
      r := Some(PartialPayment(cust.(due := newDue), newDue, now));
    }

    /**
     * `delete_customer`. An absent id gives `None` and changes nothing.
     * Otherwise the id leaves the store and the ledger and one row with
     * status "deleted" is appended to the deleted log; the id is then absent,
     * so deleting it again gives `None`.
     */
    method DeleteCustomer(id: int, now: Timestamp) returns (r: Option<Customer>)
      modifies this`customers, this`dues, this`deletedLog
      ensures r == Lookup(old(customers), id)
      ensures r.None? ==> customers == old(customers) && dues == old(dues) && deletedLog == old(deletedLog)
      ensures r.Some? ==>
                && customers == RemoveCustomer(old(customers), id)
                && dues == RemoveEntry(old(dues), id)
                && deletedLog == old(deletedLog) + [DeletedRecordOf(r.value, now)]
      ensures !HasId(customers, id)
      ensures old(Valid()) ==> Valid()
    {
      if !HasId(customers, id) {
        return None;
      }
      var cust := Lookup(customers, id).value;
      if Valid() {
        RemoveKeepsConsistent(customers, dues, id);
      }
      customers := RemoveCustomer(customers, id);
      deletedLog := deletedLog + [DeletedRecordOf(cust, now)];
      dues := RemoveEntry(dues, id);
      r := Some(cust);
    }

    /**
     * `delete_all_customers`. With an empty store nothing changes, not even
     * the ledger. Otherwise one deleted-log row per customer is appended, in
     * store order, and the store and the ledger are emptied.
     */
    method DeleteAllCustomers(now: Timestamp)
      modifies this`customers, this`dues, this`deletedLog
      ensures old(customers) == [] ==> customers == old(customers) && dues == old(dues) && deletedLog == old(deletedLog)
      ensures old(customers) != [] ==>
                customers == [] && dues == [] && deletedLog == old(deletedLog) + DeletedRecords(old(customers), now)
      ensures old(Valid()) ==> Valid()
    {
      if customers == [] {
        return;
      }
      var rows := customers;
      for i := 0 to |rows|
        invariant deletedLog == old(deletedLog) + DeletedRecords(rows[..i], now)
      {
        assert DeletedRecords(rows[..i + 1], now) == DeletedRecords(rows[..i], now) + [DeletedRecordOf(rows[i], now)];
        deletedLog := deletedLog + [DeletedRecordOf(rows[i], now)];
      }
      assert rows[..|rows|] == rows;
      customers := [];
      dues := [];
    }

    /** `get_recent_activity(limit)`: the four admin logs merged, latest first, the first `limit` rows. */
    method GetRecentActivity(limit: int := 5) returns (r: seq<Stamped<ActivityRow>>)
      ensures r == RecentActivity(addedLog, updatedLog, partialLog, deletedLog, limit)
    {
      var logs := AdminLogs(addedLog, updatedLog, partialLog, deletedLog);
      var recent: seq<ActivityRow> := [];
      var present: set<Column> := {};
      for i := 0 to |logs|
        invariant recent == Flatten(logs[..i])
        invariant forall j :: 0 <= j < |ColumnOrder| ==> (ColumnOrder[j] in present <==> j < i && logs[j] != [])
      {
        assert logs[..i + 1][..i] == logs[..i];
        if logs[i] != [] {
          recent := recent + logs[i];
          present := present + {ColumnOrder[i]};
        }
      }
      assert logs[..|logs|] == logs;
      if recent == [] {
        return [];
      }
      var sortBy: Option<Column> := None;
      for k := 0 to |ColumnOrder|
        invariant sortBy.None?
        invariant forall j :: 0 <= j < k ==> logs[j] == []
      {
        if ColumnOrder[k] in present {
          SortColumnIsFirstNonEmpty(addedLog, updatedLog, partialLog, deletedLog, k);
          sortBy := Some(ColumnOrder[k]);
          break;
        }
      }
      if sortBy.None? {
        NoAdminLogs(addedLog, updatedLog, partialLog, deletedLog);
        return [];
      }
      r := Latest(StampBy(recent, sortBy.value), limit);
    }

    /** `get_user_transactions(limit)`: the two user logs merged, latest first, the first `limit` rows. */
    method GetUserTransactions(limit: int := 10) returns (r: seq<Stamped<UserTransaction>>)
      ensures r == UserTransactions(userPaymentLog, userDeletedLog, limit)
      ensures SortedDesc(r)
      ensures limit >= 0 ==> |r| <= limit
    {
      UserTransactionsSpec(userPaymentLog, userDeletedLog, limit);
      if userPaymentLog == [] && userDeletedLog == [] {
        return [];
      }
      r := Latest(StampedTransactions(userPaymentLog, userDeletedLog), limit);
    }

    /**
     * `login_user`. On success one sign-in row is appended and the
     * customer's id, name, due, email and phone are returned; every failure
     * returns the same "Invalid credentials" and logs nothing.
     */
    method LoginUser(username: string, password: string, now: Timestamp) returns (r: LoginResult)
      modifies this`signinLog
      ensures r == LoginReply(Authenticate(customers, hash, username, password))
      ensures r.LoginRefused? ==> r.message == InvalidCredentials && signinLog == old(signinLog)
      ensures r.LoggedIn? ==>
                signinLog == old(signinLog) + [SigninRecord(now, r.customerId, username, r.name, CustomerLogin)]
    {
      var who := Authenticate(customers, hash, username, password);
      if who.Some? {
        var c := who.value;
        signinLog := signinLog + [SigninRecord(now, c.id, username, c.name, CustomerLogin)];
      }
      r := LoginReply(who);
    }

    /**
     * `user_pay_due`: the same payment as `RecordPartialPayment`, logged to
     * the user-payment log with the acting username. The returned record has
     * the new due and the old `last_update`.
     */
    method UserPayDue(username: string, id: int, amount: Amount, now: Timestamp) returns (r: Option<Customer>)
      modifies this`customers, this`dues, this`userPaymentLog
      ensures r.Some? <==> HasId(old(customers), id)
      ensures r.None? ==> customers == old(customers) && dues == old(dues) && userPaymentLog == old(userPaymentLog)
      ensures r.Some? ==> r.value.due == Lookup(old(customers), id).value.due - amount
      ensures r.Some? ==> r.value == Lookup(old(customers), id).value.(due := r.value.due)
      ensures r.Some? ==> customers == PayDown(old(customers), id, amount, now)
      ensures r.Some? ==> Lookup(customers, id).value.due == r.value.due
      ensures r.Some? ==> dues == SetLedgerDue(old(dues), id, r.value.due, now)
      ensures r.Some? ==> userPaymentLog == old(userPaymentLog) + [UserPaymentRecord(id, username, r.value.name, amount, r.value.due, now)]
      ensures old(Valid()) ==> Valid()
    {
      if !HasId(customers, id) {
        return None;
      }
      ghost var cs0, ds0, valid0 := customers, dues, Valid();
      var cust := Lookup(customers, id).value;
      var newDue := DueAfter(customers, id, amount);
      PayDownSubtracts(customers, id, amount, now);
      if valid0 {
        SetDueKeepsConsistent(cs0, ds0, id, newDue, now, now);
      }
      customers := PayDown(customers, id, amount, now);
      UpdateDueRecord(id, newDue, None, now);
      userPaymentLog := userPaymentLog + [UserPaymentRecord(id, username, cust.name, amount, newDue, now)];
      r := Some(cust.(due := newDue));
    }

    /**
     * `user_delete_account`. Refused with `None`, changing nothing, when the
     * id is absent or its due is above zero. Otherwise the id leaves the
     * store and the ledger and one row is appended to the user-deleted log.
     */
    method UserDeleteAccount(username: string, id: int, now: Timestamp) returns (r: Option<Customer>)
      modifies this`customers, this`dues, this`userDeletedLog
      ensures r.Some? <==> HasId(old(customers), id) && Lookup(old(customers), id).value.due <= 0.0
      ensures r.None? ==> customers == old(customers) && dues == old(dues) && userDeletedLog == old(userDeletedLog)
      ensures r.Some? ==>
                && r == Lookup(old(customers), id)
                && customers == RemoveCustomer(old(customers), id)
                && dues == RemoveEntry(old(dues), id)
                && userDeletedLog == old(userDeletedLog) + [UserDeletedRecord(id, username, r.value.name, now)]
                && !HasId(customers, id)
      ensures old(Valid()) ==> Valid()
    {
      if !HasId(customers, id) {
        return None;
      }
      var cust := Lookup(customers, id).value;
      if cust.due > 0.0 {
        return None;
      }
      if Valid() {
        RemoveKeepsConsistent(customers, dues, id);
      }
      customers := RemoveCustomer(customers, id);
      dues := RemoveEntry(dues, id);
      userDeletedLog := userDeletedLog + [UserDeletedRecord(id, username, cust.name, now)];
      r := Some(cust);
    }
  }
}
