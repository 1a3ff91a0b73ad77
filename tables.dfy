/**
 * The customer store and the dues ledger as sequences of rows, and the
 * whole-table changes the services make to them.
 *
 * The services select rows with `df['id'] == customer_id`: an update
 * (`df.loc[...] = ...`) changes every row with that id, a removal
 * (`df[df['id'] != customer_id]`) drops every such row, and
 * `.iloc[0]` reads the first. The functions here do the same, so they say
 * what happens even to a store whose ids are not unique; `Consistent`
 * states the invariant the operations keep when they start from a
 * consistent state.
 */
module Tables {
  import opened Wrappers
  import opened Records

  // ---------------------------------------------------------------------
  // Finding a customer
  // ---------------------------------------------------------------------

  /** `customer_id in df['id'].values`. */
  predicate HasId(cs: seq<Customer>, id: int) {
    exists i :: 0 <= i < |cs| && cs[i].id == id
  }

  /** The position of the first row with `id`, as `.iloc[0]` picks it. */
  function FirstIndex(cs: seq<Customer>, id: int): (r: Option<nat>)
    ensures r.Some? <==> HasId(cs, id)
    ensures r.Some? ==> r.value < |cs| && cs[r.value].id == id
    ensures r.Some? ==> forall j :: 0 <= j < r.value ==> cs[j].id != id
  {
    if cs == [] then None
    else if cs[0].id == id then Some(0)
    else match FirstIndex(cs[1..], id)
      case None => None
      case Some(k) => Some(k + 1)
  }

  /** `df[df['id'] == customer_id].iloc[0]`, or `None` when no row has the id. */
  function Lookup(cs: seq<Customer>, id: int): (r: Option<Customer>)
    ensures r.Some? <==> HasId(cs, id)
    ensures r.Some? ==> r.value.id == id && r.value in cs
    ensures r.Some? ==> exists k :: 0 <= k < |cs| && cs[k] == r.value && forall j :: 0 <= j < k ==> cs[j].id != id
  {
    match FirstIndex(cs, id)
    case None => None
    case Some(k) => Some(cs[k])
  }

  /** `customer_id in df_dues['id'].values`. */
  predicate LedgerHasId(ds: seq<DueEntry>, id: int) {
    exists i :: 0 <= i < |ds| && ds[i].id == id
  }

  // ---------------------------------------------------------------------
  // Listing
  // ---------------------------------------------------------------------

  /** `df[df['status'] == 'active']`: the active rows, in store order. */
  function ActiveCustomers(cs: seq<Customer>): (r: seq<Customer>)
    ensures |r| <= |cs|
    ensures forall c :: c in r <==> c in cs && c.status == Active
  {
    if cs == [] then []
    else if cs[0].status == Active then [cs[0]] + ActiveCustomers(cs[1..])
    else ActiveCustomers(cs[1..])
  }

  /** Filtering keeps store order: the active rows of a concatenation are the concatenated active rows. */
  lemma {:induction false} ActiveCustomersConcat(a: seq<Customer>, b: seq<Customer>)
    ensures ActiveCustomers(a + b) == ActiveCustomers(a) + ActiveCustomers(b)
  {
    if a == [] {
      assert a + b == b;
    } else {
      assert (a + b)[1..] == a[1..] + b;
      ActiveCustomersConcat(a[1..], b);
    }
  }

  /** `get_all_customers(active_only)`: every row, or only the active ones. */
  function ListCustomers(cs: seq<Customer>, activeOnly: bool): (r: seq<Customer>)
    ensures !activeOnly ==> r == cs
    ensures activeOnly ==> forall c :: c in r <==> c in cs && c.status == Active
  {
    if cs == [] then []
    else if activeOnly then ActiveCustomers(cs)
    else cs
  }

  // ---------------------------------------------------------------------
  // Id assignment
  // ---------------------------------------------------------------------

  /** The largest id in a non-empty store. */
  function MaxId(cs: seq<Customer>): (m: int)
    requires cs != []
    ensures forall i :: 0 <= i < |cs| ==> cs[i].id <= m
    ensures HasId(cs, m)
  {
    if |cs| == 1 then cs[0].id
    else
      var rest := MaxId(cs[1..]);
      if cs[0].id >= rest then cs[0].id else rest
  }

  /**
   * `(df['id'].max() or 0) + 1 if not df.empty else 1`. On integer ids the
   * `or 0` only replaces a maximum of 0 by 0, so it changes nothing.
   */
  function NextId(cs: seq<Customer>): (r: int)
    ensures forall i :: 0 <= i < |cs| ==> cs[i].id < r
    ensures !HasId(cs, r)
    ensures cs == [] ==> r == 1
    ensures cs != [] ==> HasId(cs, r - 1)
  {
    if cs == [] then 1 else MaxId(cs) + 1
  }

  // ---------------------------------------------------------------------
  // Row updates
  // ---------------------------------------------------------------------

  /** `df.loc[df['id'] == id, ['due', 'last_update']] = [due, now]`. */
  function SetDue(cs: seq<Customer>, id: int, due: Amount, now: Timestamp): (r: seq<Customer>)
    ensures |r| == |cs|
    ensures forall i :: 0 <= i < |cs| ==>
              r[i] == if cs[i].id == id then cs[i].(due := due, lastUpdate := now) else cs[i]
  {
    if cs == [] then []
    else [if cs[0].id == id then cs[0].(due := due, lastUpdate := now) else cs[0]]
         + SetDue(cs[1..], id, due, now)
  }

  /** The row after `reset_credentials` writes the supplied columns and `last_update`. */
  function WithCredentials(c: Customer, username: Option<string>, passwordHash: Option<string>, now: Timestamp): (r: Customer)
    ensures r.username == if username.Some? then username.value else c.username
    ensures r.passwordHash == if passwordHash.Some? then passwordHash.value else c.passwordHash
    ensures r.lastUpdate == now
    ensures r.(username := c.username, passwordHash := c.passwordHash, lastUpdate := c.lastUpdate) == c
  {
    c.(username := username.GetOr(c.username),
       passwordHash := passwordHash.GetOr(c.passwordHash),
       lastUpdate := now)
  }

  /** `df.loc[df['id'] == id, list(updates.keys())] = list(updates.values())`. */
  function SetCredentials(cs: seq<Customer>, id: int, username: Option<string>, passwordHash: Option<string>, now: Timestamp): (r: seq<Customer>)
    ensures |r| == |cs|
    ensures forall i :: 0 <= i < |cs| ==>
              r[i] == if cs[i].id == id then WithCredentials(cs[i], username, passwordHash, now) else cs[i]
  {
    if cs == [] then []
    else [if cs[0].id == id then WithCredentials(cs[0], username, passwordHash, now) else cs[0]]
         + SetCredentials(cs[1..], id, username, passwordHash, now)
  }

  /** `df[df['id'] != id]`: the rows without `id`, in their order. */
  function RemoveCustomer(cs: seq<Customer>, id: int): (r: seq<Customer>)
    ensures |r| <= |cs|
    ensures forall c :: c in r <==> c in cs && c.id != id
    ensures !HasId(r, id)
    ensures HasId(cs, id) ==> |r| < |cs|
    ensures !HasId(cs, id) ==> r == cs
  {
    if cs == [] then []
    else if cs[0].id == id then RemoveCustomer(cs[1..], id)
    else [cs[0]] + RemoveCustomer(cs[1..], id)
  }

  /** `df.loc[df['id'] == id, 'due_amount'] = due` with `last_message_date` set to `messageDate`. */
  function SetLedgerDue(ds: seq<DueEntry>, id: int, due: Amount, messageDate: Timestamp): (r: seq<DueEntry>)
    ensures |r| == |ds|
    ensures forall i :: 0 <= i < |ds| ==>
              r[i] == if ds[i].id == id then ds[i].(dueAmount := due, lastMessageDate := Some(messageDate)) else ds[i]
    ensures !LedgerHasId(ds, id) ==> r == ds
  {
    if ds == [] then []
    else [if ds[0].id == id then ds[0].(dueAmount := due, lastMessageDate := Some(messageDate)) else ds[0]]
         + SetLedgerDue(ds[1..], id, due, messageDate)
  }

  /** Removing an id distributes over concatenation, so the remaining rows keep their order. */
  lemma {:induction false} RemoveCustomerConcat(a: seq<Customer>, b: seq<Customer>, id: int)
    ensures RemoveCustomer(a + b, id) == RemoveCustomer(a, id) + RemoveCustomer(b, id)
  {
    if a != [] {
      assert (a + b)[0] == a[0];
      assert (a + b)[1..] == a[1..] + b;
      RemoveCustomerConcat(a[1..], b, id);
      var tail := RemoveCustomer(a[1..], id) + RemoveCustomer(b, id);
      if a[0].id != id {
        assert RemoveCustomer(a + b, id) == [a[0]] + tail;
        assert RemoveCustomer(a, id) == [a[0]] + RemoveCustomer(a[1..], id);
      }
    } else {
      assert a + b == b;
    }
  }

  /** `df_dues[df_dues['id'] != id]`. */
  function RemoveEntry(ds: seq<DueEntry>, id: int): (r: seq<DueEntry>)
    ensures |r| <= |ds|
    ensures forall e :: e in r <==> e in ds && e.id != id
    ensures !LedgerHasId(r, id)
  {
    if ds == [] then []
    else if ds[0].id == id then RemoveEntry(ds[1..], id)
    else [ds[0]] + RemoveEntry(ds[1..], id)
  }

  /** Removing an id from the ledger distributes over concatenation. */
  lemma {:induction false} RemoveEntryConcat(a: seq<DueEntry>, b: seq<DueEntry>, id: int)
    ensures RemoveEntry(a + b, id) == RemoveEntry(a, id) + RemoveEntry(b, id)
  {
    if a != [] {
      assert (a + b)[1..] == a[1..] + b;
      RemoveEntryConcat(a[1..], b, id);
    } else {
      assert a + b == b;
    }
  }

  // ---------------------------------------------------------------------
  // Payments
  // ---------------------------------------------------------------------

  /**
   * The store after a payment of `amount` by customer `id`: the first row's
   * due minus `amount`, written to every row with the id. There is no floor
   * at zero.
   */
  function PayDown(cs: seq<Customer>, id: int, amount: Amount, now: Timestamp): (r: seq<Customer>)
    requires HasId(cs, id)
    ensures |r| == |cs|
    ensures forall i :: 0 <= i < |cs| && cs[i].id != id ==> r[i] == cs[i]
    ensures forall i :: 0 <= i < |cs| && cs[i].id == id ==>
              r[i] == cs[i].(due := DueAfter(cs, id, amount), lastUpdate := now)
  {
    SetDue(cs, id, DueAfter(cs, id, amount), now)
  }

  /** The due left once customer `id` pays `amount`. */
  function DueAfter(cs: seq<Customer>, id: int, amount: Amount): (d: Amount)
    requires HasId(cs, id)
    ensures d + amount == Lookup(cs, id).value.due
    ensures amount > Lookup(cs, id).value.due ==> d < 0.0
  {
    Lookup(cs, id).value.due - amount
  }

  /** After `SetDue`, the first row with the id is the old first row with the new due and time. */
  lemma {:induction false} LookupAfterSetDue(cs: seq<Customer>, id: int, due: Amount, now: Timestamp)
    requires HasId(cs, id)
    ensures HasId(SetDue(cs, id, due, now), id)
    ensures Lookup(SetDue(cs, id, due, now), id) == Some(Lookup(cs, id).value.(due := due, lastUpdate := now))
  {
    var r := SetDue(cs, id, due, now);
    var k := FirstIndex(cs, id).value;
    assert r[k].id == id;
    var k' := FirstIndex(r, id).value;
    assert forall j :: 0 <= j < |cs| ==> r[j].id == cs[j].id;
    assert k' == k;
  }

  /** A payment lowers the customer's due by exactly the amount, negative results included. */
  lemma PayDownSubtracts(cs: seq<Customer>, id: int, amount: Amount, now: Timestamp)
    requires HasId(cs, id)
    ensures HasId(PayDown(cs, id, amount, now), id)
    ensures Lookup(PayDown(cs, id, amount, now), id).value.due == Lookup(cs, id).value.due - amount
  {
    LookupAfterSetDue(cs, id, Lookup(cs, id).value.due - amount, now);
  }

  /** Two payments subtract twice: recording a payment is not idempotent. */
  lemma PaymentsAccumulate(cs: seq<Customer>, id: int, a1: Amount, a2: Amount, t1: Timestamp, t2: Timestamp)
    requires HasId(cs, id)
    ensures HasId(PayDown(cs, id, a1, t1), id)
    ensures Lookup(PayDown(PayDown(cs, id, a1, t1), id, a2, t2), id).value.due
            == Lookup(cs, id).value.due - a1 - a2
    ensures a2 != 0.0 ==> PayDown(PayDown(cs, id, a1, t1), id, a2, t2) != PayDown(cs, id, a1, t1)
  {
    PayDownSubtracts(cs, id, a1, t1);
    var cs1 := PayDown(cs, id, a1, t1);
    PayDownSubtracts(cs1, id, a2, t2);
  }

  // ---------------------------------------------------------------------
  // Consistency of the store and the ledger
  // ---------------------------------------------------------------------

  /** No two customers share an id. */
  predicate UniqueIds(cs: seq<Customer>) {
    forall i, j :: 0 <= i < j < |cs| ==> cs[i].id != cs[j].id
  }

  /** Ledger row `e` belongs to customer `c` and shows its due. */
  predicate Mirrors(c: Customer, e: DueEntry) {
    e.id == c.id && e.name == c.name && e.phone == c.phone && e.address == c.address && e.dueAmount == c.due
  }

  /** The ledger has one row per customer, in store order, each showing that customer's due. */
  predicate LedgerMirrors(cs: seq<Customer>, ds: seq<DueEntry>) {
    |cs| == |ds| && forall i :: 0 <= i < |cs| ==> Mirrors(cs[i], ds[i])
  }

  predicate Consistent(cs: seq<Customer>, ds: seq<DueEntry>) {
    UniqueIds(cs) && LedgerMirrors(cs, ds)
  }

  /** In a consistent state the ledger knows exactly the store's ids. */
  lemma ConsistentLedgerIds(cs: seq<Customer>, ds: seq<DueEntry>, id: int)
    requires LedgerMirrors(cs, ds)
    ensures LedgerHasId(ds, id) <==> HasId(cs, id)
  {
    if LedgerHasId(ds, id) {
      var i :| 0 <= i < |ds| && ds[i].id == id;
      assert cs[i].id == id;
    }
    if HasId(cs, id) {
      var i :| 0 <= i < |cs| && cs[i].id == id;
      assert ds[i].id == id;
    }
  }

  /** With unique ids, an update by id changes exactly the one row that has it. */
  lemma SetDueChangesOneRow(cs: seq<Customer>, id: int, due: Amount, now: Timestamp)
    requires UniqueIds(cs) && HasId(cs, id)
    ensures var k := FirstIndex(cs, id).value;
            && SetDue(cs, id, due, now)[k] == cs[k].(due := due, lastUpdate := now)
            && forall j :: 0 <= j < |cs| && j != k ==> SetDue(cs, id, due, now)[j] == cs[j]
  {
  }

  /** Appending a customer with the next id and its fresh ledger row keeps the state consistent. */
  lemma AddKeepsConsistent(cs: seq<Customer>, ds: seq<DueEntry>, c: Customer, today: Date)
    requires Consistent(cs, ds)
    requires c.id == NextId(cs)
    ensures Consistent(cs + [c], ds + [NewDueEntry(c, today)])
  {
    var cs', ds' := cs + [c], ds + [NewDueEntry(c, today)];
    forall i, j | 0 <= i < j < |cs'| ensures cs'[i].id != cs'[j].id {
      if j == |cs| { assert cs'[i] == cs[i]; }
    }
    forall i | 0 <= i < |cs'| ensures Mirrors(cs'[i], ds'[i]) {
      if i < |cs| { assert cs'[i] == cs[i] && ds'[i] == ds[i]; }
    }
  }

  /** Writing the same due to the store and the ledger keeps the state consistent. */
  lemma SetDueKeepsConsistent(cs: seq<Customer>, ds: seq<DueEntry>, id: int, due: Amount, now: Timestamp, messageDate: Timestamp)
    requires Consistent(cs, ds)
    ensures Consistent(SetDue(cs, id, due, now), SetLedgerDue(ds, id, due, messageDate))
  {
    var cs', ds' := SetDue(cs, id, due, now), SetLedgerDue(ds, id, due, messageDate);
    forall i | 0 <= i < |cs| ensures Mirrors(cs'[i], ds'[i]) {
      assert Mirrors(cs[i], ds[i]);
    }
  }

  /** Changing credentials leaves ids and dues alone, so it keeps the state consistent. */
  lemma SetCredentialsKeepsConsistent(cs: seq<Customer>, ds: seq<DueEntry>, id: int, username: Option<string>, passwordHash: Option<string>, now: Timestamp)
    requires Consistent(cs, ds)
    ensures Consistent(SetCredentials(cs, id, username, passwordHash, now), ds)
  {
    var cs' := SetCredentials(cs, id, username, passwordHash, now);
    forall i | 0 <= i < |cs| ensures Mirrors(cs'[i], ds[i]) {
      assert Mirrors(cs[i], ds[i]);
    }
  }

  /** Removing an id from both tables keeps the ledger a mirror of the store. */
  lemma {:induction false} RemoveKeepsMirror(cs: seq<Customer>, ds: seq<DueEntry>, id: int)
    requires LedgerMirrors(cs, ds)
    ensures LedgerMirrors(RemoveCustomer(cs, id), RemoveEntry(ds, id))
  {
    if cs != [] {
      assert LedgerMirrors(cs[1..], ds[1..]) by {
        forall i | 0 <= i < |cs| - 1 ensures Mirrors(cs[1..][i], ds[1..][i]) {
          assert Mirrors(cs[i + 1], ds[i + 1]);
        }
      }
      RemoveKeepsMirror(cs[1..], ds[1..], id);
      assert Mirrors(cs[0], ds[0]);
      var rc, rd := RemoveCustomer(cs[1..], id), RemoveEntry(ds[1..], id);
      if cs[0].id != id {
        forall i | 0 <= i < |rc| + 1 ensures Mirrors(([cs[0]] + rc)[i], ([ds[0]] + rd)[i]) {
          if i > 0 { assert ([cs[0]] + rc)[i] == rc[i - 1] && ([ds[0]] + rd)[i] == rd[i - 1]; }
        }
      }
    }
  }

  /** A row whose id no other row has keeps unique ids unique in front. */
  lemma ConsUnique(c: Customer, cs: seq<Customer>)
    requires UniqueIds(cs)
    requires forall d :: d in cs ==> d.id != c.id
    ensures UniqueIds([c] + cs)
  {
    var r := [c] + cs;
    forall i, j | 0 <= i < j < |r| ensures r[i].id != r[j].id {
      assert r[j] == cs[j - 1];
      if i > 0 { assert r[i] == cs[i - 1]; } else { assert cs[j - 1] in cs; }
    }
  }

  /** Removing rows keeps the remaining ids unique. */
  lemma {:induction false} RemoveKeepsUnique(cs: seq<Customer>, id: int)
    requires UniqueIds(cs)
    ensures UniqueIds(RemoveCustomer(cs, id))
  {
    if cs != [] {
      assert UniqueIds(cs[1..]);
      RemoveKeepsUnique(cs[1..], id);
      var rest := RemoveCustomer(cs[1..], id);
      if cs[0].id != id {
        forall d | d in rest ensures d.id != cs[0].id {
          var k :| 0 <= k < |cs[1..]| && cs[1..][k] == d;
          assert cs[k + 1] == d;
        }
        ConsUnique(cs[0], rest);
      }
    }
  }

  /** Deleting a customer from both tables keeps the state consistent. */
  lemma RemoveKeepsConsistent(cs: seq<Customer>, ds: seq<DueEntry>, id: int)
    requires Consistent(cs, ds)
    ensures Consistent(RemoveCustomer(cs, id), RemoveEntry(ds, id))
  {
    RemoveKeepsMirror(cs, ds, id);
    RemoveKeepsUnique(cs, id);
  }
}
