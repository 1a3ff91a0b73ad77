/**
 * The two read-side queries over the audit logs: recent admin activity and
 * user transactions. Both tag every row with a timestamp (possibly NaT),
 * sort by it in descending order with NaT last (pandas'
 * `sort_values(ascending=False)`), and keep the first `limit` rows
 * (`head(limit)`).
 */
module Activity {
  import opened Wrappers
  import opened Records

  /** A log row with the `timestamp` column the query adds; `None` is NaT. */
  datatype Stamped<T> = Stamped(timestamp: Option<Timestamp>, record: T)

  // ---------------------------------------------------------------------
  // Descending order with NaT last
  // ---------------------------------------------------------------------

  /** A row stamped `a` may come before one stamped `b`: later first, NaT last. */
  predicate Precedes(a: Option<Timestamp>, b: Option<Timestamp>) {
    match a
    case None => b.None?
    case Some(x) => b.None? || x >= b.value
  }

  predicate SortedDesc<T>(s: seq<Stamped<T>>) {
    forall i, j :: 0 <= i < j < |s| ==> Precedes(s[i].timestamp, s[j].timestamp)
  }

  /** Every row after the first of a sorted sequence may follow the first. */
  lemma HeadPrecedesTail<T>(s: seq<Stamped<T>>)
    requires SortedDesc(s) && s != []
    ensures forall y :: y in multiset(s[1..]) ==> Precedes(s[0].timestamp, y.timestamp)
  {
    forall y | y in multiset(s[1..]) ensures Precedes(s[0].timestamp, y.timestamp) {
      var j :| 0 <= j < |s[1..]| && s[1..][j] == y;
      assert s[j + 1] == y;
    }
  }

  /** A row that may precede every row of a sorted sequence keeps it sorted in front. */
  lemma ConsSorted<T>(a: Stamped<T>, s: seq<Stamped<T>>)
    requires SortedDesc(s)
    requires forall y :: y in multiset(s) ==> Precedes(a.timestamp, y.timestamp)
    ensures SortedDesc([a] + s)
  {
    var r := [a] + s;
    forall i, j | 0 <= i < j < |r| ensures Precedes(r[i].timestamp, r[j].timestamp) {
      assert r[j] == s[j - 1];
      if i > 0 { assert r[i] == s[i - 1]; } else { assert s[j - 1] in multiset(s); }
    }
  }

  /** Puts `x` into a sorted sequence in front of the first row it may precede. */
  function Insert<T>(x: Stamped<T>, s: seq<Stamped<T>>): (r: seq<Stamped<T>>)
    requires SortedDesc(s)
    ensures SortedDesc(r)
    ensures multiset(r) == multiset(s) + multiset{x}
  {
    if s == [] || Precedes(x.timestamp, s[0].timestamp) then
      ConsSorted(x, s);
      [x] + s
    else
      var rest := Insert(x, s[1..]);
      assert s == [s[0]] + s[1..];
      HeadPrecedesTail(s);
      ConsSorted(s[0], rest);
      [s[0]] + rest
  }

  /**
   * `sort_values(by='timestamp', ascending=False)`: a permutation of the rows,
   * latest first and NaT last. pandas' default sort does not promise an order
   * among equal timestamps; this one keeps the input order.
   */
  function SortDesc<T>(s: seq<Stamped<T>>): (r: seq<Stamped<T>>)
    ensures SortedDesc(r)
    ensures multiset(r) == multiset(s)
  {
    if s == [] then []
    else
      assert s == [s[0]] + s[1..];
      Insert(s[0], SortDesc(s[1..]))
  }

  /**
   * `head(n)`: the first `n` rows, all of them when there are fewer, and for
   * a negative `n` all rows but the last `-n`.
   */
  function Head<T>(s: seq<T>, n: int): (r: seq<T>)
    ensures |r| <= |s| && r == s[..|r|]
    ensures n >= 0 ==> |r| == if n <= |s| then n else |s|
    ensures n < 0 ==> |r| == if -n <= |s| then |s| + n else 0
  {
    if n >= 0 then (if n <= |s| then s[..n] else s)
    else if -n <= |s| then s[..|s| + n]
    else []
  }

  /** Sort, then take the first `n`. */
  function Latest<T>(s: seq<Stamped<T>>, n: int): (r: seq<Stamped<T>>)
    ensures |r| <= |s|
    ensures n >= 0 ==> |r| <= n
  {
    assert |SortDesc(s)| == |multiset(SortDesc(s))| == |multiset(s)| == |s|;
    Head(SortDesc(s), n)
  }

  /**
   * The rows `Latest` keeps are ordered, at most `n` of them for `n >= 0`,
   * drawn from the input, and each may precede every row it leaves out.
   */
  lemma LatestSpec<T>(s: seq<Stamped<T>>, n: int)
    ensures SortedDesc(Latest(s, n))
    ensures n >= 0 ==> |Latest(s, n)| == if n <= |s| then n else |s|
    ensures multiset(Latest(s, n)) <= multiset(s)
    ensures forall x, y :: x in Latest(s, n) && y in multiset(s) - multiset(Latest(s, n)) ==>
              Precedes(x.timestamp, y.timestamp)
  {
    var sorted := SortDesc(s);
    var r := Latest(s, n);
    var rest := sorted[|r|..];
    assert sorted == r + rest;
    assert multiset(sorted) == multiset(r) + multiset(rest);
    assert forall i :: 0 <= i < |r| ==> r[i] == sorted[i];
    forall x, y | x in r && y in multiset(s) - multiset(r) ensures Precedes(x.timestamp, y.timestamp) {
      assert y in rest;
      var i :| 0 <= i < |r| && r[i] == x;
      var j :| 0 <= j < |rest| && rest[j] == y;
      assert sorted[|r| + j] == y;
    }
  }

  // ---------------------------------------------------------------------
  // Recent activity
  // ---------------------------------------------------------------------

  /** The timestamp columns of the four admin logs, in the order the query tries them. */
  datatype Column = AddedAt | UpdatedAt | PartialAt | DeletedAt

  const ColumnOrder: seq<Column> := [AddedAt, UpdatedAt, PartialAt, DeletedAt]

  /** A row of one of the four admin logs. */
  datatype ActivityRow =
    | Added(added: AddedRecord)
    | Updated(updated: UpdatedRecord)
    | Partial(partial: PartialRecord)
    | Deletion(deleted: DeletedRecord)
  {
    /** The only timestamp column this row has. */
    function ColumnOf(): Column {
      match this
      case Added(_) => AddedAt
      case Updated(_) => UpdatedAt
      case Partial(_) => PartialAt
      case Deletion(_) => DeletedAt
    }

    /** The value in that column. */
    function Time(): Timestamp {
      match this
      case Added(r) => r.addedAt
      case Updated(r) => r.updatedAt
      case Partial(r) => r.partialAt
      case Deletion(r) => r.deletedAt
    }
  }

  function AddedRows(log: seq<AddedRecord>): seq<ActivityRow> {
    seq(|log|, i requires 0 <= i < |log| => Added(log[i]))
  }

  function UpdatedRows(log: seq<UpdatedRecord>): seq<ActivityRow> {
    seq(|log|, i requires 0 <= i < |log| => Updated(log[i]))
  }

  function PartialRows(log: seq<PartialRecord>): seq<ActivityRow> {
    seq(|log|, i requires 0 <= i < |log| => Partial(log[i]))
  }

  function DeletionRows(log: seq<DeletedRecord>): seq<ActivityRow> {
    seq(|log|, i requires 0 <= i < |log| => Deletion(log[i]))
  }

  /** `pd.concat` of the four logs, in the order they are loaded. */
  function Combined(added: seq<AddedRecord>, updated: seq<UpdatedRecord>,
                    partial: seq<PartialRecord>, deleted: seq<DeletedRecord>): seq<ActivityRow> {
    AddedRows(added) + UpdatedRows(updated) + PartialRows(partial) + DeletionRows(deleted)
  }

  /**
   * The one column the query sorts every row by: the first of
   * `added_at`, `updated_at`, `partial_at`, `deleted_at` that the combined
   * table has, which is the column of the first non-empty log.
   */
  function SortColumn(added: seq<AddedRecord>, updated: seq<UpdatedRecord>,
                      partial: seq<PartialRecord>, deleted: seq<DeletedRecord>): (col: Option<Column>)
    ensures col.None? <==> Combined(added, updated, partial, deleted) == []
  {
    if added != [] then Some(AddedAt)
    else if updated != [] then Some(UpdatedAt)
    else if partial != [] then Some(PartialAt)
    else if deleted != [] then Some(DeletedAt)
    else None
  }

  /** `combined['timestamp'] = pd.to_datetime(combined[col])`: rows without `col` get NaT. */
  function StampBy(rows: seq<ActivityRow>, col: Column): (r: seq<Stamped<ActivityRow>>)
    ensures |r| == |rows|
    ensures forall i :: 0 <= i < |rows| ==> r[i].record == rows[i]
    ensures forall i :: 0 <= i < |rows| ==> (r[i].timestamp.Some? <==> rows[i].ColumnOf() == col)
    ensures forall i :: 0 <= i < |rows| && r[i].timestamp.Some? ==> r[i].timestamp.value == rows[i].Time()
  {
    seq(|rows|, i requires 0 <= i < |rows| =>
      Stamped(if rows[i].ColumnOf() == col then Some(rows[i].Time()) else None, rows[i]))
  }

  /** The stamped rows the recent-activity query sorts. */
  function StampedActivity(added: seq<AddedRecord>, updated: seq<UpdatedRecord>,
                           partial: seq<PartialRecord>, deleted: seq<DeletedRecord>): seq<Stamped<ActivityRow>> {
    match SortColumn(added, updated, partial, deleted)
    case None => []
    case Some(col) => StampBy(Combined(added, updated, partial, deleted), col)
  }

  /** `get_recent_activity(limit)` on the four logs. */
  function RecentActivity(added: seq<AddedRecord>, updated: seq<UpdatedRecord>,
                          partial: seq<PartialRecord>, deleted: seq<DeletedRecord>, limit: int): (r: seq<Stamped<ActivityRow>>)
    ensures |r| <= |added| + |updated| + |partial| + |deleted|
    ensures limit >= 0 ==> |r| <= limit
  {
    if Combined(added, updated, partial, deleted) == [] then []
    else Latest(StampedActivity(added, updated, partial, deleted), limit)
  }

  /**
   * Recent activity returns at most `limit` rows (for `limit >= 0`), drawn
   * without repetition from the stamped logs, latest first and NaT last, and none of the rows
   * left out may come before a returned one.
   */
  lemma RecentActivitySpec(added: seq<AddedRecord>, updated: seq<UpdatedRecord>,
                           partial: seq<PartialRecord>, deleted: seq<DeletedRecord>, limit: int)
    ensures var r := RecentActivity(added, updated, partial, deleted, limit);
            && SortedDesc(r)
            && (limit >= 0 ==> |r| <= limit)
            && (limit >= 0 ==> |r| == if limit <= |added| + |updated| + |partial| + |deleted| then limit
                                      else |added| + |updated| + |partial| + |deleted|)
            && multiset(r) <= multiset(StampedActivity(added, updated, partial, deleted))
            && (forall x :: x in r ==> x.record in Combined(added, updated, partial, deleted))
            && (forall x, y :: x in r && y in multiset(StampedActivity(added, updated, partial, deleted)) - multiset(r) ==>
                  Precedes(x.timestamp, y.timestamp))
  {
    var c := Combined(added, updated, partial, deleted);
    var s := StampedActivity(added, updated, partial, deleted);
    var r := RecentActivity(added, updated, partial, deleted, limit);
    if c != [] {
      LatestSpec(s, limit);
      forall x | x in r ensures x.record in c {
        assert x in multiset(s);
        var i :| 0 <= i < |s| && s[i] == x;
        assert s[i].record == c[i];
      }
    }
  }

  /**
   * As written, once the added log has a row, rows of the other three logs
   * carry no timestamp: every added row, however old, is listed before
   * them.
   */
  lemma RecentActivityStampsOnlyFirstLog(added: seq<AddedRecord>, updated: seq<UpdatedRecord>,
                                         partial: seq<PartialRecord>, deleted: seq<DeletedRecord>)
    requires added != []
    ensures forall x :: x in StampedActivity(added, updated, partial, deleted) ==>
              (x.timestamp.Some? <==> x.record.Added?)
  {
    var c := Combined(added, updated, partial, deleted);
    forall x | x in StampedActivity(added, updated, partial, deleted) ensures x.timestamp.Some? <==> x.record.Added? {
      var i :| 0 <= i < |c| && StampBy(c, AddedAt)[i] == x;
    }
  }

  /** A customer added at time 1 and updated at time 100: the one-row query returns the addition. */
  lemma RecentActivityPrefersOlderAddition(a: AddedRecord, u: UpdatedRecord)
    requires a.addedAt == 1 && u.updatedAt == 100
    ensures RecentActivity([a], [u], [], [], 1) == [Stamped(Some(1), Added(a))]
  {
    var s := StampedActivity([a], [u], [], []);
    assert AddedRows([a]) == [Added(a)];
    assert UpdatedRows([u]) == [Updated(u)];
    assert Combined([a], [u], [], []) == [Added(a), Updated(u)];
    assert s == [Stamped(Some(1), Added(a)), Stamped(None, Updated(u))];
    assert SortDesc(s[1..]) == [Stamped(None, Updated(u))];
  }

  // ---------------------------------------------------------------------
  // User transactions
  // ---------------------------------------------------------------------

  /** A row of the user-payment or the user-deleted-account log. */
  datatype UserTransaction =
    | Payment(payment: UserPaymentRecord)
    | AccountDeletion(deletion: UserDeletedRecord)
  {
    /** `payment_date` where the row has one, otherwise `deleted_at`. */
    function Time(): Timestamp {
      match this
      case Payment(p) => p.paymentDate
      case AccountDeletion(d) => d.deletedAt
    }
  }

  /** `pd.concat([payments, deletions])` with the per-row timestamp. */
  function StampedTransactions(payments: seq<UserPaymentRecord>, deletions: seq<UserDeletedRecord>): (r: seq<Stamped<UserTransaction>>)
    ensures |r| == |payments| + |deletions|
    ensures forall i :: 0 <= i < |payments| ==> r[i] == Stamped(Some(payments[i].paymentDate), Payment(payments[i]))
    ensures forall i :: 0 <= i < |deletions| ==>
              r[|payments| + i] == Stamped(Some(deletions[i].deletedAt), AccountDeletion(deletions[i]))
  {
    seq(|payments|, i requires 0 <= i < |payments| => Stamped(Some(payments[i].paymentDate), Payment(payments[i])))
    + seq(|deletions|, i requires 0 <= i < |deletions| => Stamped(Some(deletions[i].deletedAt), AccountDeletion(deletions[i])))
  }

  /** `get_user_transactions(limit)` as evidently intended: it never fails. */
  function UserTransactions(payments: seq<UserPaymentRecord>, deletions: seq<UserDeletedRecord>, limit: int): (r: seq<Stamped<UserTransaction>>)
    ensures |r| <= |payments| + |deletions|
    ensures limit >= 0 ==> |r| <= limit
  {
    if payments == [] && deletions == [] then []
    else Latest(StampedTransactions(payments, deletions), limit)
  }

  /**
   * `get_user_transactions(limit)` as written: with the payment log never
   * written, `combined.get('payment_date')` is `None` and `.where` on it
   * raises `AttributeError` as soon as the deletion log has a row.
   */
  function UserTransactionsAsWritten(payments: seq<UserPaymentRecord>, deletions: seq<UserDeletedRecord>, limit: int): (r: Result<seq<Stamped<UserTransaction>>, PythonError>)
    ensures payments != [] || deletions == [] ==> r == Success(UserTransactions(payments, deletions, limit))
    ensures payments == [] && deletions != [] ==> r == Failure(AttributeError)
  {
    if payments == [] && deletions != [] then Failure(AttributeError)
    else Success(UserTransactions(payments, deletions, limit))
  }

  /** One account deletion before any user payment makes the query as written raise. */
  lemma UserTransactionsAsWrittenRaises(d: UserDeletedRecord, limit: int)
    ensures UserTransactionsAsWritten([], [d], limit) == Failure(AttributeError)
    ensures UserTransactions([], [d], limit) == Head([Stamped(Some(d.deletedAt), AccountDeletion(d))], limit)
  {
    assert StampedTransactions([], [d]) == [Stamped(Some(d.deletedAt), AccountDeletion(d))];
  }

  /** Every stamped transaction carries its own time and comes from one of the two logs. */
  lemma StampedTransactionsFromLogs(payments: seq<UserPaymentRecord>, deletions: seq<UserDeletedRecord>, x: Stamped<UserTransaction>)
    requires x in StampedTransactions(payments, deletions)
    ensures x.timestamp == Some(x.record.Time())
    ensures x.record.Payment? ==> x.record.payment in payments
    ensures x.record.AccountDeletion? ==> x.record.deletion in deletions
  {
    var s := StampedTransactions(payments, deletions);
    var i :| 0 <= i < |s| && s[i] == x;
    if i >= |payments| { assert s[|payments| + (i - |payments|)] == x; }
  }

  /** Of two stamped transactions, the one whose stamp may precede is no earlier. */
  lemma TimesFollowStamps(payments: seq<UserPaymentRecord>, deletions: seq<UserDeletedRecord>, x: Stamped<UserTransaction>, y: Stamped<UserTransaction>)
    requires x in StampedTransactions(payments, deletions) && y in StampedTransactions(payments, deletions)
    requires Precedes(x.timestamp, y.timestamp)
    ensures x.record.Time() >= y.record.Time()
  {
    StampedTransactionsFromLogs(payments, deletions, x);
    StampedTransactionsFromLogs(payments, deletions, y);
  }

  /**
   * User transactions: at most `limit` rows (for `limit >= 0`), drawn without
   * repetition from the two logs, latest first,
   * and none of the rows left out is later than a returned one.
   */
  lemma UserTransactionsSpec(payments: seq<UserPaymentRecord>, deletions: seq<UserDeletedRecord>, limit: int)
    ensures var r := UserTransactions(payments, deletions, limit);
            && SortedDesc(r)
            && (limit >= 0 ==> |r| <= limit)
            && (limit >= 0 ==> |r| == if limit <= |payments| + |deletions| then limit else |payments| + |deletions|)
            && multiset(r) <= multiset(StampedTransactions(payments, deletions))
            && (forall x, y :: x in r && y in multiset(StampedTransactions(payments, deletions)) - multiset(r) ==>
                  x.record.Time() >= y.record.Time())
  {
    var s := StampedTransactions(payments, deletions);
    var r := UserTransactions(payments, deletions, limit);
    if s != [] {
      LatestSpec(s, limit);
      forall x, y | x in r && y in multiset(s) - multiset(r) ensures x.record.Time() >= y.record.Time() {
        assert x in multiset(s);
        TimesFollowStamps(payments, deletions, x, y);
      }
    }
  }

  /**
   * Every returned user transaction is a row of its log, stamped with its
   * own `payment_date` or `deleted_at`.
   */
  lemma UserTransactionsFromLogs(payments: seq<UserPaymentRecord>, deletions: seq<UserDeletedRecord>, limit: int)
    ensures forall x :: x in UserTransactions(payments, deletions, limit) ==>
              && x.timestamp == Some(x.record.Time())
              && (x.record.Payment? ==> x.record.payment in payments)
              && (x.record.AccountDeletion? ==> x.record.deletion in deletions)
  {
    var s := StampedTransactions(payments, deletions);
    var r := UserTransactions(payments, deletions, limit);
    if s != [] {
      LatestSpec(s, limit);
      forall x | x in r
        ensures x.timestamp == Some(x.record.Time())
        ensures x.record.Payment? ==> x.record.payment in payments
        ensures x.record.AccountDeletion? ==> x.record.deletion in deletions
      {
        assert x in multiset(s);
        StampedTransactionsFromLogs(payments, deletions, x);
      }
    }
  }
}
