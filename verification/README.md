# Point-of-sale inventory, cart and orders — a Dafny model

This project models the bookkeeping core of a small Flask/sqlite point-of-sale app:
the `inventory` table, the per-session cart, the append-only `orders` ledger, and the
transitions the app's routes and its CSV import perform on them. Every route becomes a
pure function from the old values to the new ones.

- `Inventory` (`inventory.dfy`): the table as a map from the UNIQUE `sku` column to its
  record, the invariant `SkuKeyed` (each record carries the sku it is stored under), and
  the two manual edits of the manage page: "add new" (a plain INSERT whose failure is
  printed and swallowed) and "update existing" (an UPDATE matching brand and sku).
- `Cart` (`cart.dfy`): `add_to_cart`, `remove_from_cart` and the grand total of
  `view_cart`. The cart is a value passed in and returned.
- `Orders` (`orders.dfy`): `submit_order`, which appends one ledger row per cart entry,
  decrements each sku's stock by its cart quantity and clears the cart.
- `OrderGroups` (`groups.dfy`): the loop of `view_orders` that buckets rows by the text
  key `"name | mobile"` with a running grand total.
- `CsvImport` (`csvimport.dfy`): the row loop of `import_inventory_from_csv`, an
  INSERT OR IGNORE per row with `inserted` and `skipped` counters.
- Support: `Dicts` (`dicts.dfy`) is a Python `dict` — a map plus the insertion order
  that iteration follows — used for the cart and for the grouped orders; `Text`
  (`text.dfy`) is `str.strip()`; `Options` (`options.dfy`) holds `Option` and `Result`.

Prices (`mrp`, `finalsp`, `sp`, `total`) are integers, e.g. cents. A form or CSV field
that `float()` or `int()` would reject is an `Option` that is `None`.

What the code does not check:

- Adding to the cart checks only that the sku exists. There is no stock check and no
  positivity check on the quantity (`Cart.AddToCart`).
- Checkout does not check stock and can drive a quantity below zero
  (`Orders.CheckoutMayOversell`). An empty cart commits nothing and is not an error.
- The CSV import does not merge quantities into existing records. A row whose sku
  already exists is ignored by INSERT OR IGNORE, yet it is counted as inserted.

## Model

| member | source | states |
|---|---|---|
| Inventory.AddNew | app.py:76-91 | the insert happens exactly when every number parses and the sku is new; it adds one record built from the form and leaves every other record alone; a duplicate sku or a bad number is reported, not raised, and leaves the table unchanged; the sku-keyed invariant is kept |
| Inventory.UpdateExisting | app.py:93-106 | quantity rises by the delta only when the record for that sku has the given brand; a wrong brand or unknown sku changes nothing and reports nothing; a bad delta is reported and changes nothing; the key set never changes |
| Inventory.Manage | app.py:67-106 | a GET or an unknown action changes nothing; the two actions dispatch to the edits above; the sku-keyed invariant survives every request |
| Text.Strip | init_db.py:55-57 | the result has no leading or trailing whitespace, and a string without any is returned as is |
| Text.StripCutsSpace | init_db.py:55-57 | the result is `s` with some whitespace cut from each end |
| Text.StrippedFromIsStrip | init_db.py:55-57 | that description fixes the result: any unpadded core left by cutting whitespace from both ends of `s` is `Strip(s)` |
| Text.StripOfSplit | init_db.py:55-57 | cutting an all-whitespace prefix and suffix off `s` that leaves an unpadded middle leaves exactly what strip returns |
| Text.StripIgnoresPadding | init_db.py:55-57 | whitespace added on either side of a cell does not change what it strips to |
| Cart.AddToCart | app.py:22-50 | fails with Invalid SKU exactly when the sku is not in the inventory, whatever the quantity or stock; otherwise an entry already present keeps its brand and price and gains exactly `qty`, a new entry copies brand, sku and sale price from the inventory record, and every other entry is unchanged |
| Cart.AddsAccumulate | app.py:39-40 | two adds of one sku equal one add of the summed quantity, with the price of the first add |
| Cart.RemoveFromCart | app.py:58-64 | only the given key disappears, the other entries are unchanged, and removing an absent sku returns the cart as it was |
| Cart.RemoveIdempotent | app.py:60-63 | removing twice is removing once |
| Cart.RemoveUndoesFreshAdd | app.py:39-63 | adding a sku not in the cart and removing it again gives back the same cart, order included |
| Cart.Total | app.py:54-55 | the grand total of the cart; the empty cart totals 0 (the changes made by an add, a remove and a checkout are stated by the lemmas below and in `Orders`) |
| Cart.TotalAfterAdd | app.py:39-55 | an add raises the total by the added quantity times the entry's price snapshot |
| Cart.TotalAfterRemove | app.py:55-63 | a remove lowers the total by exactly the removed entry's `sp * qty` |
| Orders.CommitLines | app.py:179-193 | the loop over the cart keys appends one row per key after the old ledger and decrements exactly the listed skus by their cart quantities |
| Orders.SubmitOrder | app.py:168-199 | one new row per cart entry, in the iteration order of the cart it is given, all with the given timestamp, name, mobile and payment and with `total = quantity * sp`; earlier rows untouched; each cart sku's stock reduced by its cart quantity with no lower bound and every other record unchanged; the cart ends empty; the sku-keyed invariant is kept |
| Orders.CheckoutTotalIsCartTotal | app.py:179-188 | the totals of the rows one checkout appends sum to the cart total |
| Orders.CheckoutMayOversell | app.py:191-193 | a cart quantity above the stock leaves that record with a negative quantity |
| Orders.CheckoutsOnlyAppend | app.py:185-188 | two checkouts in a row keep every earlier ledger row in place and add one row per entry of each cart |
| OrderGroups.GroupOrders | app.py:147-163 | there is one bucket per key that occurs; each holds exactly the rows with its key, in input order, with a grand total equal to the sum of their totals |
| OrderGroups.AddRowKeepsGroups | app.py:149-163 | one turn of the loop extends the grouping of the rows seen so far to the grouping of one more row |
| OrderGroups.EveryRowInExactlyOneBucket | app.py:148-155 | every row is in the bucket of its own key and in no other bucket |
| OrderGroups.BucketsMerge | app.py:149-163 | rows of two stretches of the ledger with one key merge into one bucket whose grand total is the sum of both stretches' totals |
| OrderGroups.OneKeyIsOneBucket | app.py:149-163 | rows that all share a key make a single bucket holding all of their total |
| OrderGroups.CheckoutIsOneBucket | app.py:177-188 | grouping the rows of one checkout (as `GroupOrders` does) gives a single bucket keyed by the customer whose grand total is the cart total, and no bucket for an empty cart |
| OrderGroups.KeysCanCollide | app.py:149 | two different (name, mobile) pairs can share one text key and hence one bucket |
| CsvImport.ParseRow | init_db.py:54-60 | a record is built exactly when every cell is present and every number parses; its brand, category and sku are the stripped cells and its numbers are the parsed cells |
| CsvImport.ImportRow | init_db.py:50-65 | a bad row adds one to skipped and changes nothing else; a good row adds one to inserted, and inserts its record only when its stripped sku is new |
| CsvImport.ImportFrom | init_db.py:49-65 | every row is counted once; skipped counts the bad rows; the new keys are the stripped skus of the good rows; existing records are unchanged; the sku-keyed invariant is kept |
| CsvImport.ImportInventory | init_db.py:41-68 | `inserted + skipped` is the number of rows; existing records, quantity included, are never changed; the keys afterwards are the old ones plus the stripped skus of the good rows |
| CsvImport.InsertedBoundsNewRecords | init_db.py:51-62 | the number of new records is at most `inserted`, since ignored duplicates are counted too |
| CsvImport.FirstRowWins | init_db.py:49-53 | for a new sku, the first good row with that sku decides the record, whatever later rows say |
| CsvImport.MalformedRowIsSkipped | init_db.py:63-65 | a bad row anywhere in the batch costs one skipped count and the rest is imported as if it were absent |
| CsvImport.SecondRowIgnored | init_db.py:51-53 | a second good row with the same stripped sku as the first leaves the first row's record |
| CsvImport.PaddedSkuIsDuplicate | init_db.py:51-57 | a sku cell padded with whitespace is a duplicate of the bare cell and is ignored |

## Left out

- Flask routing, templates, redirects, HTTP status codes and the `session` object: the
  cart is passed in and returned, and a rejected add is a `Failure` after which the
  caller keeps its cart.
- Parsing of the request forms outside a `try`: `int(request.form['qty'])` in
  `add_to_cart` raising before anything happens is not modelled; quantities are `int`.
- sqlite connections, SQL text, the `id` columns and the schema beyond the UNIQUE sku
  constraint; the two tables are a map and a sequence.
- `get_inventory`, the inventory page, the brand dropdown and the `ORDER BY` of the
  manage page: they only display data.
- `datetime.now()`: the timestamp is a parameter of the checkout.
- The `ORDER BY timestamp DESC` of `view_orders`: the grouping takes the rows in the
  order the query returns them.
- OrderGroups.GroupOrders: does not state the order of the buckets themselves (order of
  first appearance of each key), only their contents.
- The CSV file: its existence check, opening and reading are left out; the import takes
  the rows already read. A file whose header lacks the SKU column makes the error
  message itself raise and aborts the batch; the model assumes the column is present.
- Floating-point prices and totals: integers are used and rounding is not modelled.
- NaN price cells: `float()` accepts "nan", and sqlite stores a NaN parameter as NULL,
  which the NOT NULL `mrp`/`finalsp` columns (init_db.py:18-19) refuse. The CSV import
  then drops such a row silently under INSERT OR IGNORE but still counts it as
  inserted, and "add new" fails with its printed error. A price here is an integer or
  unparsable, so `CsvImport.ImportRow`, `CsvImport.ImportFrom`, `CsvImport.ImportInventory`
  and `Inventory.AddNew` never meet such a cell; for them, a parsed row always has a
  storable price.
- sqlite's 64-bit integer limits on quantity: integers are unbounded.
- The printed messages: an edit's printed error is the `error` field of its result.
- Concurrency between sessions: each request is a single sequential transition.
- Cart order between requests: the cart lives in Flask's cookie session, which is
  serialized as JSON with sorted keys, so each request reloads the cart in sku order and
  `submit_order` writes one checkout's rows in sku order. The model's cart keeps the order
  in which skus were added, so the order of one checkout's rows (`Orders.SubmitOrder`,
  `Orders.CommitLines`) may differ from the program's; their contents, count, totals and
  the stock changes do not depend on it.
