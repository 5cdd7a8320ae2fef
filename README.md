# Hot-Dog-POS store model

A Dafny model of the till behind the Hot-Dog-POS web app (`POS.py`). The till
keeps five SQLite tables: items, payment methods, users, sale headers and sale
lines. Its route handlers apply a few business rules before they touch those
tables. The model keeps the tables and the rules:

- recording a sale (`create_sale`): the cart filter, pricing from the items
  table, the total, the refusal of a sale that comes to nothing, and the rows
  written;
- creating, updating and deleting items, users and payment methods, with their
  validation, the UNIQUE names, the protected payment method and the ban on
  deleting one's own account;
- the PIN login (`api_login`);
- the seed rows the store starts with.

Layout, one module per file:

- `Text.dfy`: `str.strip()` with Python's whitespace set.
- `Tables.dfy`: a table with an `INTEGER PRIMARY KEY AUTOINCREMENT` key: rows
  by id, plus the next id to hand out; insert, delete and update of one row.
- `Schema.dfy`: the row records, the handlers' refusals, and the pure checks
  the create handlers make on a submitted form.
- `Sales.dfy`: the cart filter and total, with a reference definition of what a
  cart costs. It also holds the invariant tying every sale header to its lines.
- `Auth.dfy`: the login check.
- `Store.dfy`: class `Store`, whose methods are the handlers. Each handler is
  one atomic change of the store, as each runs in one `with con:` transaction.
  Every method keeps `Valid()`: the id counters are ahead of every id in use;
  usernames and payment-method names are unique; every stored name, username
  and PIN is trimmed; and every sale's header total is positive and equals what
  its lines add up to.

Modelling choices:

- Money is an integer number of cents.
- The request's JSON fields are `Option` values; an absent field reads as the
  source's `or ''` / `or 0` default (`Schema.TextOr`, `Schema.NumberOr`).
  `Auth.Login` takes the two texts after that default.
- The session user, the payment method id and the `utcnow()` timestamp are
  parameters.
- `create_sale` looks kept lines up in a map of the items whose ids occur in
  the cart. The model looks them up in the items table directly, which gives
  the same answer.
- An UPDATE that renames a user or payment method to a name another row
  already holds raises an IntegrityError that the handler does not catch. The
  transaction rolls back and the request fails. The model answers
  `Err(UniqueViolation)` and changes nothing.

Some of the code's rules are looser than a reader might expect. The model keeps
them as the code has them:

- `create_sale` does not check that the payment method exists.
- Item names are not unique.
- `items_update` validates nothing, so it may store an empty name or a price
  that is not positive.
- `payments_update` always writes the protected flag, so it can clear it.
- `users_update` stores a PIN made only of whitespace as the empty string; such
  a user can no longer log in (`Auth.EmptyPinLocksOut`).
- `users_delete` has no login guard. Its session is therefore an `Option`.

## Model

| member | source | states |
|---|---|---|
| Text.Strip | POS.py:95-96 | the result is the slice of the input from its first to its last non-whitespace character: whitespace only lies before and after it, it has none at either end, and it is empty exactly when the input is blank |
| Tables.Table.Insert | POS.py:236 | an INSERT gives the row the next id, which no row holds; every other row keeps its id and contents; the counter moves on by one |
| Tables.Table.Delete | POS.py:256 | a DELETE by id removes exactly that row, if present; the other rows and the counter stay |
| Tables.Table.Replace | POS.py:247-249 | an UPDATE by id of an existing row changes only that row and keeps the set of ids |
| Schema.ItemForm | POS.py:229-233 | an item is refused exactly when the stripped name is empty or the price is not positive; otherwise it carries the stripped name and the price |
| Schema.UserForm | POS.py:262-267 | a user is refused exactly when the stripped username or PIN is empty; otherwise it carries both stripped and the admin flag |
| Schema.PaymentForm | POS.py:309-313 | a payment method is refused exactly when the stripped name is empty; otherwise it carries the stripped name and the protected flag |
| Sales.Normalize | POS.py:157-163 | every normalised line has a positive quantity, names a known item and carries that item's stored price; there are never more lines than in the cart |
| Sales.NormalizeOne | POS.py:158-163 | a single cart line is kept, priced from the items table, exactly when its qty is positive and its item exists; otherwise it is dropped |
| Sales.NormalizeAppend | POS.py:157-163 | each cart line is judged on its own: normalising two carts one after the other gives their normalised lines one after the other, in cart order |
| Sales.NormalizeMembers | POS.py:158-163 | a priced line is in the normalised cart exactly when some cart line with positive qty and a known item, priced from the table, is that line |
| Sales.NormalizedTotal | POS.py:155-163 | the accumulated total equals the reference cost of the cart: the sum over its lines of stored price × qty, dropped lines contributing nothing |
| Sales.TotalPositive | POS.py:161-164 | when every line has a positive price and quantity, the total is positive exactly when there is a line |
| Sales.NothingKeptRefused | POS.py:158-165 | a cart none of whose lines has a positive qty and a known item normalises to nothing, and its total is not positive, so the sale is refused whatever the stored prices are |
| Sales.PositivePricesRefuseOnlyEmptyCarts | POS.py:164-165 | while every stored price is positive, a sale is refused for its total exactly when no cart line survives the filter |
| Sales.LinesTotalOfWritten | POS.py:170 | the line rows written for a sale add up to the total of its normalised lines |
| Sales.WrittenSnoc | POS.py:170 | writing one more line under the next id extends the lines written so far by that line |
| Sales.RecordKeepsConsistent | POS.py:164-170 | writing a header with a positive total under a fresh id, and its lines under fresh ids, keeps every header equal to the sum of its own lines |
| Sales.WriteKeepsSalesInv | POS.py:167-170 | the same for the sales tables with their id counters |
| Auth.Login | POS.py:92-104 | login fails with the missing-credentials answer exactly when the stripped username or PIN is blank; it succeeds exactly when some user has that username and that PIN; on success the session holds that user's id, name and admin flag; otherwise it answers with the wrong-PIN refusal |
| Auth.LoginAcceptsStoredCredentials | POS.py:97-103 | a user with a non-empty, trimmed username and PIN logs in with exactly them, into their own session |
| Auth.EmptyPinLocksOut | POS.py:97-101 | a user whose stored PIN is empty never gets a session |
| PosStore.SeedItems | POS.py:62-65 | the seed holds items 1 to 4, all with positive prices, and the next item id is beyond them |
| PosStore.SeedPayments | POS.py:66 | the seed holds payment method 1, and it is protected |
| PosStore.SeedUsers | POS.py:67 | the seed holds user 1, and it is an administrator |
| PosStore.SeedAdminCanLogIn | POS.py:67 | the seeded administrator logs in as user 1 with "Admin" and "0000" |
| PosStore.CreatedUserCanLogIn | POS.py:260-274 | a user that `users_create` adds keeps the users table valid and can then log in with the submitted username and PIN, surrounding whitespace included, as the new user |
| PosStore.PriceCart | POS.py:156-163 | the cart loop yields exactly the normalised cart and its total |
| PosStore.WriteLines | POS.py:170 | `executemany` writes one line row per normalised line, in order, under consecutive fresh ids, each naming the sale; earlier rows are kept |
| PosStore.Store.constructor | POS.py:61-68 | the store starts as the seed: the seeded items, payment method and user, and no sales |
| PosStore.Store.RecordSale | POS.py:147-171 | a total that is not positive is refused with both sales tables unchanged; otherwise exactly one header is added under the next sale id with the session user, the payment method and the total; one line row per kept line follows, in cart order, naming the new sale; the store stays valid |
| PosStore.Store.WriteSale | POS.py:167-170 | writes the header, then the lines, and keeps the headers in agreement with their lines |
| PosStore.Store.CreateItem | POS.py:227-237 | refused with no change exactly when the stripped name is blank or the price is not positive; otherwise exactly one item with a fresh id is added |
| PosStore.Store.UpdateItem | POS.py:239-250 | only the supplied fields of that item change (the name stripped); other items, the ids and the counter stay; an unknown id changes nothing |
| PosStore.Store.DeleteItem | POS.py:252-257 | exactly that item is removed |
| PosStore.Store.CreateUser | POS.py:260-274 | refused with no change when the stripped username or PIN is blank, or when the username is already taken; otherwise exactly one user with a fresh id is added |
| PosStore.Store.UpdateUser | POS.py:276-289 | the username changes only when supplied, the PIN only when non-empty, and the admin flag always; a rename onto another user's name fails and changes nothing; other users stay |
| PosStore.Store.DeleteUser | POS.py:291-298 | refused with no change exactly when the id is the session user's; otherwise exactly that user is removed |
| PosStore.Store.CreatePaymentMethod | POS.py:307-320 | refused with no change when the stripped name is blank or already taken; otherwise exactly one payment method with a fresh id is added |
| PosStore.Store.UpdatePaymentMethod | POS.py:322-332 | the name changes only when supplied, and the protected flag always; a rename onto another method's name fails and changes nothing; other methods stay |
| PosStore.Store.DeletePaymentMethod | POS.py:334-342 | refused with no change exactly when the method exists and is protected; otherwise exactly that row is removed |

## Left out

- Flask plumbing is left out: routing, templates, redirects, JSON responses, HTTP status codes and the signed session cookie. The handlers' answers are `Result` values, and the session user is a parameter.
- The login guard of `create_sale` is left out: it redirects when no one is logged in. `RecordSale` takes the logged-in user's id.
- The login's writing of the session is left out. `Auth.Login` returns the session value instead.
- SQLite connection handling is left out. Each handler is one atomic update of the store.
- The page and list handlers are left out: `index`, `admin_page`, `api_users`, `items_list` and `payments_list` only read the tables.
- `api_today` is left out. Its meaning lies in SQL joins, grouping and the wall clock.
- Floating-point prices and totals are left out. Money is exact integer cents, so float rounding in the total is not modelled.
- Timestamps are left out. `datetime.utcnow().isoformat()` is an opaque parameter.
- Foreign keys are left out. The schema declares them, but the connection does not switch their enforcement on. Deleting an item, user or payment method therefore leaves sales that name it, and the model does the same.
- Parse errors and type coercion of request bodies are left out: a missing `payment_method_id`, a non-numeric `qty`, or a non-string name. Fields are already typed, and a missing key of a required field is not modelled.
- JSON truthiness is reduced to the modelled types. `is_admin` and `protected` are booleans. A PIN is "supplied" to `users_update` when it is present and non-empty.
- `INSERT OR IGNORE` of the seed on a later start is left out. Only the first start, on an empty database, is modelled.
- SQLite's limits are left out, and integers are unbounded. A cart with more lines than SQLite accepts as bound parameters makes the `IN (?,…)` lookup fail. An id or a qty outside the signed 64-bit range cannot be bound and raises an `OverflowError`. In both cases the real handler answers with a server error and writes nothing. The model has no such failure:
- PosStore.Store.RecordSale: records the sale for a cart of any length and for any item id or qty, where the real handler fails with nothing written.
- PosStore.Store.UpdateItem, PosStore.Store.DeleteItem, PosStore.Store.UpdateUser, PosStore.Store.DeleteUser, PosStore.Store.UpdatePaymentMethod, PosStore.Store.DeletePaymentMethod: an id outside the 64-bit range is treated as an unknown id, which gives `Ok(())`, where the real handler fails.
