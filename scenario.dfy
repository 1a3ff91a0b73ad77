/**
 * A client of the shop: a customer is added with a due of 500, pays 200,
 * cannot close the account while 300 is owed, pays the remaining 300 and
 * then closes it, which leaves both the store and the ledger empty.
 */
module Scenario {
  import opened Wrappers
  import opened Records
  import opened Credentials
  import opened Tables
  import opened Services

  method PayThenCloseAccount(hash: string -> string, now: Timestamp, today: Date)
    returns (id: int, username: string, firstDue: Amount, firstLedgerDue: Amount, refused: Option<Customer>,
             secondDue: Amount, secondLedgerDue: Amount, closed: Option<Customer>,
             storeAfter: seq<Customer>, ledgerAfter: seq<DueEntry>)
    ensures id == 1 && username == "janedoe"
    ensures firstDue == 300.0 && firstLedgerDue == 300.0
    ensures refused.None?
    ensures secondDue == 0.0 && secondLedgerDue == 0.0
    ensures closed.Some? && closed.value.id == 1 && closed.value.due == 0.0
    ensures storeAfter == [] && ledgerAfter == []
  {
    var shop := new Shop(hash);
    var issued := shop.AddCustomer("Jane Doe", "555-0100", "1 Main Street", 500.0, "4821", now, today);
    id, username := issued.customer.id, issued.customer.username;
    JaneDoeUsername();
    assert Lookup(shop.customers, id) == Some(issued.customer);
    var first := shop.RecordPartialPayment(id, 200.0, now);
    firstDue, firstLedgerDue := first.value.partialDue, shop.dues[0].dueAmount;
    refused := shop.UserDeleteAccount(username, id, now);
    var second := shop.RecordPartialPayment(id, 300.0, now);
    secondDue, secondLedgerDue := second.value.partialDue, shop.dues[0].dueAmount;
    closed := shop.UserDeleteAccount(username, id, now);
    storeAfter, ledgerAfter := shop.customers, shop.dues;
  }
}
