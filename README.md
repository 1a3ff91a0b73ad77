# Due-tracking ledger

This is a model of the service layer of a small shop's due tracker, `backend/services.py`. The shop keeps several tables:

- a **customer store**: id, name, contact details, due, category, status, timestamps, username and password hash;
- a **dues ledger**, with one row per customer that mirrors the customer's due;
- seven **append-only logs**: added, updated, partial-payment, deleted, user-payment, user-deleted and sign-in.

The operations add, update, pay down, re-credential and delete customers, and they keep the store and the ledger in step. Three queries read the tables back: the customer list, the latest admin activity and the latest user transactions.

The model has these modules:

- `Records`: the rows of every table, as datatypes.
- `Credentials`: username and password generation, and Python's `str.strip`.
- `Tables`: the table operations that select rows by id, together with the consistency invariant. The invariant says that ids are unique and that the ledger mirrors the store row by row.
- `Activity`: the recent-activity and user-transaction queries. Each query merges logs, stable-sorts them latest first with missing timestamps last, then takes pandas' `head(limit)`.
- `Authentication`: the login match.
- `Services`: the class `Shop`. It holds one `seq` field per table file and has one method per service function. Every method states the new value of each field it modifies. Every method except the ledger-only primitive `UpdateDueRecord` keeps the invariant `Valid()`. `UpdateDueRecord` writes the ledger alone, so on its own it can break the mirror; its callers write the same due to the store.
- `Scenario`: a client that adds a customer, pays in two steps, is refused account deletion while a due remains, and closes the account once the due is zero.

The model keeps some behaviours of pandas on purpose:

- `df.loc[df.id == id]` writes every row with the id, and `.iloc[0]` reads the first such row.
- Payments have no floor at zero.
- `update_due_record` silently ignores an id that is not in the ledger.
- `delete_all_customers` on an empty store leaves the ledger alone.
- `get_recent_activity` picks one timestamp column for all rows, the first log that is non-empty. Rows from the other logs get no timestamp and sort last. This is modelled as written, and `RecentActivityPrefersOlderAddition` shows the effect.

Some inputs are parameters:

- The clock:
  - `now` is a `Timestamp`, an integer number of seconds.
  - `today` is a `Date`.
- The four random password digits are a parameter.
- werkzeug's salted hashing is the function `Shop.hash`, and a password is checked as `hash(password) == stored`.

Dues are `real`.

## Model

| member | source | states |
|---|---|---|
| Credentials.Username | backend/services.py:37-38 | the username has only lower-case ASCII letters and digits and is no longer than the name |
| Credentials.KeepAlnum | backend/services.py:38 | removing the characters outside [a-zA-Z0-9] keeps only alphanumerics, never lengthens, leaves an all-alphanumeric string unchanged and empties one without alphanumerics; with `KeepAlnumConcat` this fixes the result character by character |
| Credentials.LowerAll | backend/services.py:38 | `.lower()` on the kept characters maps each one through ASCII lower-casing and keeps the length |
| Credentials.LowerAscii | backend/services.py:38 | lower-casing maps each capital 'A'..'Z' to the lower-case letter at the same place in the alphabet and fixes lower-case letters and digits |
| Credentials.KeepAlnumConcat | backend/services.py:38 | the character filter distributes over concatenation, so the kept characters stay in order |
| Credentials.UsernameConcat | backend/services.py:38 | the username of a concatenation is the concatenation of the usernames |
| Credentials.UsernameOfLowerAlnum | backend/services.py:38 | a name that is already lower-case alphanumeric is its own username |
| Credentials.UsernameIdempotent | backend/services.py:38 | generating a username from a username changes nothing |
| Credentials.SpaceCount | backend/services.py:42 | the number of plain spaces in the string, its multiset count of `' '`, at most the length |
| Credentials.UsernameOfTwoWords | backend/services.py:38 | two alphanumeric words joined by a space give the two words lower-cased and run together |
| Credentials.JaneDoeUsername | backend/services.py:38 | the username generated for "Jane Doe" is "janedoe" |
| Credentials.WithoutSpaces | backend/services.py:42 | `name.replace(' ', '')` has length = length − spaces, no space, only characters of the name, is the identity on a name without spaces and empties a name of spaces only |
| Credentials.WithoutSpacesConcat | backend/services.py:42 | removing spaces distributes over concatenation, so the other characters keep their order |
| Credentials.Password | backend/services.py:41-42 | the password has length (name minus spaces) + 4, no space, and ends in four digits |
| Credentials.GenerateCredentials | backend/services.py:35-44 | the intended credentials: a lower-alphanumeric username, and as password the space-free name followed by exactly the supplied digits |
| Credentials.GenerateCredentialsAsWritten | backend/services.py:35-44 | as written the function always raises: TypeError when called without exactly one argument |
| Credentials.AddCustomerCallRaises | backend/services.py:60 | the call without `name` raises TypeError, and a call with it still fails because `re` is not imported |
| Credentials.LeadingWhitespace | backend/services.py:249 | counts the leading whitespace: all of it is whitespace and the next character is not |
| Credentials.TrailingWhitespace | backend/services.py:249 | counts the trailing whitespace: all of it is whitespace and the character before is not |
| Credentials.Strip | backend/services.py:249 | `str.strip()` returns the contiguous slice after the leading whitespace, with no whitespace at either end and only whitespace after it |
| Credentials.StripTrimmed | backend/services.py:249 | a string without surrounding whitespace is unchanged by strip |
| Credentials.StripIdempotent | backend/services.py:249 | stripping twice is stripping once |
| Credentials.GeneratedCredentialsAreTrimmed | backend/services.py:38-42 | generated usernames and passwords survive the login's strip when the name has no whitespace other than spaces |
| Tables.FirstIndex | backend/services.py:91-94 | the position of the first row with the id exists exactly when the id is in the store, and no earlier row has it |
| Tables.Lookup | backend/services.py:91-94 | `.iloc[0]` of the rows with the id: present exactly when the id is in the store, with that id, and the first row that has it |
| Tables.ActiveCustomers | backend/services.py:50-51 | the active filter keeps exactly the store's rows whose status is "active" |
| Tables.ActiveCustomersConcat | backend/services.py:50-51 | the active filter distributes over concatenation |
| Tables.ListCustomers | backend/services.py:46-52 | the listing is the whole store, or exactly its active rows when `active_only` |
| Tables.MaxId | backend/services.py:56 | the maximum id bounds every id and is one of them |
| Tables.NextId | backend/services.py:56 | the new id is larger than every id and so fresh, is 1 for an empty store, and otherwise is the maximum + 1 |
| Tables.SetDue | backend/services.py:119 | rows with the id get the due and `last_update`; every other row is unchanged |
| Tables.SetCredentials | backend/services.py:97-106 | rows with the id get the supplied username and hash and `last_update`; every other row is unchanged |
| Tables.RemoveCustomer | backend/services.py:165 | the store without the id keeps exactly the other rows, is shorter when the id was present and is unchanged otherwise |
| Tables.RemoveCustomerConcat | backend/services.py:165 | removal distributes over concatenation, so the remaining rows keep store order |
| Tables.SetLedgerDue | backend/services.py:206-211 | ledger rows with the id get the due and the message date, every other row is unchanged, and an absent id changes nothing |
| Tables.RemoveEntry | backend/services.py:177-178 | the ledger without the id keeps exactly the other rows |
| Tables.RemoveEntryConcat | backend/services.py:177-178 | ledger removal distributes over concatenation, so the remaining rows keep their order |
| Tables.WithCredentials | backend/services.py:98-105 | the row after a reset has the supplied username and hash, the old ones where nothing was supplied, the new `last_update`, and every other column unchanged |
| Tables.DueAfter | backend/services.py:141 | the new due plus the amount is the first row's old due; paying more than the due leaves it negative |
| Tables.PayDown | backend/services.py:140-143 | rows with the id get the new due and `last_update`; every other row is unchanged |
| Tables.LookupAfterSetDue | backend/services.py:119-121 | after the update the customer read back is the old first row with the new due and time |
| Tables.PayDownSubtracts | backend/services.py:140-143 | a payment lowers the customer's due by exactly the amount, with no floor at zero |
| Tables.PaymentsAccumulate | backend/services.py:140-143 | two payments subtract both amounts, so a repeated non-zero payment changes the store again |
| Tables.ConsistentLedgerIds | backend/services.py:204 | when the ledger mirrors the store, an id is in the ledger exactly when it is in the store |
| Tables.SetDueChangesOneRow | backend/services.py:119 | with unique ids, the update changes exactly one row, the customer's own |
| Tables.AddKeepsConsistent | backend/services.py:56-85 | appending a customer with the next id and its ledger row keeps ids unique and the ledger mirroring the store |
| Tables.SetDueKeepsConsistent | backend/services.py:119-131 | writing the same due to the store and the ledger keeps them consistent |
| Tables.SetCredentialsKeepsConsistent | backend/services.py:105 | changing credentials keeps the store and the ledger consistent |
| Tables.RemoveKeepsMirror | backend/services.py:165-178 | removing an id from both tables keeps the ledger mirroring the store |
| Tables.RemoveKeepsUnique | backend/services.py:165 | removing an id keeps ids unique |
| Tables.RemoveKeepsConsistent | backend/services.py:165-178 | deleting a customer from both tables keeps them consistent |
| Activity.Insert | backend/services.py:238 | inserting into a latest-first sequence keeps it latest-first and adds exactly that row |
| Activity.SortDesc | backend/services.py:238 | the sort is latest-first, with missing timestamps last, and a permutation of its input |
| Activity.Head | backend/services.py:239 | `head(n)` is a prefix of length min(n, size), or for negative n drops the last |n| rows |
| Activity.Latest | backend/services.py:238-239 | sort then head: never more rows than the input, nor more than `n` |
| Activity.LatestSpec | backend/services.py:238-239 | the result is sorted, `limit` long or everything, drawn from the input, and no left-out row is later than a returned one |
| Activity.SortColumn | backend/services.py:232-236 | a sort column is chosen exactly when some log has rows |
| Activity.StampBy | backend/services.py:233-235 | only rows of the chosen log get a timestamp, their own; every row is kept in order |
| Activity.RecentActivity | backend/services.py:216-239 | the recent-activity query on the four logs: empty when every log is, at most `limit` rows and never more than the logs hold |
| Activity.RecentActivitySpec | backend/services.py:216-239 | recent activity is sorted latest first, has min(limit, total) rows, is a sub-multiset of the stamped logs (no row repeated), each row from one of the four logs, and no omitted row is later than a returned one |
| Activity.RecentActivityStampsOnlyFirstLog | backend/services.py:232-236 | with a non-empty added log, only added rows carry a timestamp |
| Activity.RecentActivityPrefersOlderAddition | backend/services.py:232-239 | an addition at time 1 outranks an update at time 100 for `limit` 1 |
| Activity.StampedTransactions | backend/services.py:313-316 | payments are stamped with `payment_date` and deletions with `deleted_at`, payments first |
| Activity.StampedTransactionsFromLogs | backend/services.py:313-316 | every stamped transaction carries its own time and comes from its log |
| Activity.UserTransactions | backend/services.py:307-318 | the intended user-transactions query: at most `limit` rows and never more than the two logs hold |
| Activity.UserTransactionsSpec | backend/services.py:307-318 | user transactions are sorted latest first, min(limit, total) long, a sub-multiset of the two stamped logs (no row repeated), and no omitted row is later than a returned one |
| Activity.UserTransactionsFromLogs | backend/services.py:313-316 | every returned transaction has its payment date, or otherwise its deletion date, and comes from a log |
| Activity.UserTransactionsAsWritten | backend/services.py:307-318 | as written the query agrees with the corrected one whenever the payment log is non-empty or the deletion log is empty, and raises AttributeError otherwise |
| Activity.UserTransactionsAsWrittenRaises | backend/services.py:313-316 | with no payments and one deletion the query as written raises AttributeError, where the intended result is that deletion |
| Authentication.Verifies | backend/services.py:253 | `check_password_hash(stored, password)` as the injected hash: the password's hash equals the stored one |
| Authentication.IsCandidate | backend/services.py:248-251 | a row is a candidate when its stripped username equals the stripped input and its status is "active" |
| Authentication.FirstCandidate | backend/services.py:248-251 | finds the first active customer whose stripped username matches, or shows there is none |
| Authentication.Authenticate | backend/services.py:247-253 | a customer logged in is in the store, active, has the stripped username, and has a hash that verifies the stripped password, and is the first candidate (`.iloc[0]`), not any later namesake |
| Authentication.FirstCandidateUnique | backend/services.py:253 | there is only one first candidate |
| Authentication.AuthenticateExactly | backend/services.py:243-271 | login succeeds exactly when the first matching active customer's hash verifies the password |
| Authentication.LoginReply | backend/services.py:262-271 | every failure gives the same "Invalid credentials" reply; a success carries the customer's id, name, due, email and phone |
| Authentication.FirstCandidateAppended | backend/services.py:248-251 | a candidate appended after non-candidates is the first candidate |
| Authentication.LoginAfterAdd | backend/services.py:243-271 | a customer just added can log in with the generated credentials |
| Records.NewDueEntry | backend/services.py:81-85 | the new ledger row carries the customer's id, name, phone, address and due, today's date and no message date |
| Records.AddedRecordOf | backend/services.py:74-78 | the added-log row carries the customer's id, name, phone, email, address, due, `last_update` and `added_at`, with status "active" |
| Records.UpdatedRecordOf | backend/services.py:124-129 | the updated-log row carries the row's id, name, phone, email, address, due, `last_update` and status, the new due and the time |
| Records.PartialRecordOf | backend/services.py:147-152 | the partial-log row carries the row's id, name, phone, email, address and status, the pre-payment due and `last_update`, the new due and the time |
| Records.DeletedRecordOf | backend/services.py:169-174 | the deleted-log row carries the customer's id, name, phone, email, address, due and `last_update`, status "deleted" and the time |
| Services.Supplied | backend/services.py:98-100 | an optional argument counts when Python finds it true: present and not the empty string |
| Services.DeletedRecords | backend/services.py:187-198 | one deleted-log row per customer, in store order |
| Services.AdminLogs | backend/services.py:217-228 | the four admin logs in load order; concatenated, they are the combined table |
| Services.SortColumnIsFirstNonEmpty | backend/services.py:232-236 | the column of the first non-empty log is the sort column |
| Services.NoAdminLogs | backend/services.py:229-230 | with every log empty there is nothing to report |
| Services.Shop.constructor | backend/services.py:26-27 | a shop whose files are absent: every table empty, consistent |
| Services.Shop.GetAllCustomers | backend/services.py:46-52 | returns the store, or exactly its active rows |
| Services.Shop.AddCustomer | backend/services.py:54-87 | the new customer has the next id, status "active", the generated username and the hash of the generated password; exactly one row is appended to the store, the added log and the ledger, whose due is the given due; the invariant is kept |
| Services.Shop.ResetCredentials | backend/services.py:89-112 | absent id gives None and no change; only supplied fields and `last_update` change; with none supplied the store is untouched and the password is "[unchanged]" |
| Services.Shop.UpdateDue | backend/services.py:114-133 | absent id gives None and changes nothing; otherwise only that customer's due and time change, the ledger takes the same due, one updated-log row is appended |
| Services.Shop.UpdateDueRecord | backend/services.py:202-212 | ledger rows with the id get the due and message date (now when none is given); an absent id is a no-op |
| Services.Shop.RecordPartialPayment | backend/services.py:136-157 | absent id gives None and changes nothing; otherwise the due drops by the amount in store and ledger, and the log row holds the pre-payment due next to the new one |
| Services.Shop.DeleteCustomer | backend/services.py:160-180 | absent id gives None and changes nothing; otherwise the id leaves store and ledger, one "deleted" row is logged, and the id is absent afterwards |
| Services.Shop.DeleteAllCustomers | backend/services.py:182-200 | an empty store changes nothing, not even the ledger; otherwise one deleted-log row per customer is appended in order and both tables are emptied |
| Services.Shop.GetRecentActivity | backend/services.py:216-239 | the loops compute exactly the recent-activity query |
| Services.Shop.GetUserTransactions | backend/services.py:307-318 | returns exactly the user-transactions query |
| Services.Shop.LoginUser | backend/services.py:243-271 | the reply is the login match's; a sign-in row is appended only on success, and failures all say "Invalid credentials" |
| Services.Shop.UserPayDue | backend/services.py:274-286 | like a partial payment, logged with the acting username, the amount and the new due |
| Services.Shop.UserDeleteAccount | backend/services.py:288-304 | refused with no change when the id is absent or the due is above zero; otherwise the id leaves store and ledger and one row is logged |
| Scenario.PayThenCloseAccount | backend/services.py:288-304 | "Jane Doe" gets id 1 and username "janedoe"; paying 200 of 500 leaves 300 in store and ledger and closing is refused; paying 300 more leaves 0 in both, and closing then succeeds and empties the store and the ledger |

## Left out

- CSV persistence is not modelled. Reading, writing and appending files become field reads and assignments, and the header written on first append has no counterpart.
- A table file that does not exist yet loads as an empty frame with no columns. `df['id']` on such a frame raises KeyError, and the model treats it as an empty table instead.
- There is no dataframe column or type coercion (`float(due)`, `pd.to_datetime(..., errors='coerce')`), and no timestamp formatting. Timestamps are integers, and a missing one is `None`.
- Floating-point rounding is not modelled: dues are exact reals.
- werkzeug's salted hashing is the injected function `hash`, and `secrets` randomness is the `digits` parameter.
- Each call to `datetime.now()` is one `now` parameter. Two calls within the same operation are taken to return the same time.
- Services.Shop.GetRecentActivity: pandas' default sort is not stable. The model sorts stably and proves only that the result is sorted and drawn from the logs, not pandas' order among equal timestamps.
- Services.Shop.AddCustomer and Services.Shop.ResetCredentials return the customer next to the plaintext password as an `Issued` value. The source returns one dictionary whose `password` entry is replaced by the plaintext, so its caller never sees the hash; the model's `Issued.customer` still holds it.
- Services.Shop.GetUserTransactions uses the same stable sort, with the same gap among equal timestamps.
- Reading a table back is taken to return the rows that were written. `read_csv` does not guarantee this. An empty username, from a name with no letters or digits, reads back as NaN and never matches at line 249, where the model lets "" match. A store whose usernames are all digits loads as an integer column, on which `.str` raises.
- Services.Shop.GetUserTransactions models the evidently intended query (see Findings), not the AttributeError it raises as written.
- Services.Shop.AddCustomer models the intended credential generation from `name`, not the TypeError the call at line 60 raises.
- Tables.NextId: ids are integers, so the NaN maximum of a column without numbers is not modelled.
- Other files are not part of this model: the HTTP routes and e-mail, the payment-gateway client, the reminder scheduler, the logging decorator and the application wiring.

## Findings

| source | as written | input that shows it | evidently intended | confidence | as-written member | corrected member |
|---|---|---|---|---|---|---|
| backend/services.py:60, backend/services.py:38 | `add_customer` calls `_generate_credentials()` with no argument, and the function uses `re`, which is never imported | any `add_customer` call: TypeError (and NameError even with the name passed) | credentials generated from `name` | not executed | Credentials.AddCustomerCallRaises | Credentials.GenerateCredentials |
| backend/services.py:313-316 | `combined.get('payment_date')` is None when the payment log is empty | no user payments and one account deletion: AttributeError | rows stamped by `deleted_at` when there is no `payment_date` | not executed | Activity.UserTransactionsAsWrittenRaises | Activity.UserTransactionsSpec |
