# DataFood backend: accounts, menu and orders

This project models the Flask backend of the DataFood restaurant app
(`app.py`), whose handlers work on a PostgreSQL database:

- `POST /register` and `POST /login` manage user accounts. Passwords are
  hashed with bcrypt.
- `GET /menu` lists dishes and drinks, each joined to its category and
  ordered by category and name.
- `POST /pedido` records a sale priced with the prices the client sends.
- `POST /realizarPedido` resolves the table first, creating it when it is
  new. It then prices every item from the catalog and records the sale with
  its lines, all in one transaction.

The model has five modules:

- `Schema` (schema.dfy) holds the database rows and the three-way shape of
  a JSON key (absent, `null` or a value). It also holds `Fault`, which names
  the SQL statement, counted from 0, at which the database raises.
- `Text` (text.dfy) models Python's `str.strip()` and the code-point order
  of names in `ORDER BY`.
- `Catalog` (catalog.dfy) is the `/menu` projection: the inner join,
  missing prices shown as 0, and an insertion sort by (categoria, nombre).
- `Orders` (orders.dfy) holds specification functions for what each order
  endpoint writes:
  - `/pedido`: `ClientTotal` and `ClientLines`.
  - `/realizarPedido`: `Priced`, `CatalogTotal`, `CatalogLines`,
    `RealizarStatements`, and the table step `EnsureMesa`.
- `App` (store.dfy) is a `Store` class that stands in for the database. Its
  fields are `users`, `mesas`, `ventas`, `lines` and the next value of each
  identity column.

Each handler is a method of `Store`. The two order handlers first run a
read-only `Prepare…` method that returns the response and the staged rows.
They assign those rows to the store (`Commit`) only when the answer is 200.
A failed transaction therefore leaves the store unchanged, which is the
rollback. Every state-changing handler keeps the `Valid()` invariant:

- identity values are fresh and never reused;
- `id_mesa` values are distinct;
- every sale line refers to a stored sale, and to a stored table when it
  names one.

Money is integer cents. The model follows the code as written:

- `/pedido` does not force a line to name exactly one catalog item, and it
  does not require a positive quantity. A `tipo` other than `"plato"` or
  `"bebida"` leaves both foreign keys null, and `cantidad` is written as
  given, 1 when absent.
- In `/pedido`, a missing `cantidad` counts 0 towards `monto_total` (line
  205) but is written as 1 on the line (line 221). The lines then differ
  from the total by the client price of each such item
  (`MissingCantidadCountsDifferently`).
- In `/realizarPedido`, any `tipo` other than `"plato"`, an absent one
  included, is looked up among the drinks.
- In `/realizarPedido`, a truthy `items` that is not a list passes the
  request check. It fails only after the table insert, and is then rolled
  back, so that validation error is not caught before the first write.
- In `/realizarPedido`, items with a non-positive quantity or an unknown id
  are skipped. An order whose items are all skipped still creates the table
  and a sale with total 0 (`NothingBilled`, `OrderUnknownItem`).
- In `/realizarPedido`, a catalog row with a NULL price makes `float(None)`
  raise during pricing, which gives a 500 and a rollback.

## Model

| member | source | states |
|---|---|---|
| Text.Strip | app.py:19 | the stripped string is no longer than the input and neither starts nor ends with white space |
| Text.StripInfix | app.py:19 | the stripped string is a contiguous infix of the input, and only white space lies before and after it |
| Text.StripEmptyIffBlank | app.py:19-24 | a username strips to the empty string (and is refused with 400) exactly when it is all white space |
| Text.StripIdempotent | app.py:19 | stripping an already stripped username changes nothing |
| Text.LessIrreflexive | app.py:135 | no name sorts strictly before itself |
| Text.LessTrichotomy | app.py:135 | any two names are equal or one sorts strictly before the other |
| Text.LessTransitive | app.py:135 | the name order is transitive |
| Catalog.BeforeTotal | app.py:135 | any two menu entries are comparable under ORDER BY categoria, nombre |
| Catalog.BeforeTransitive | app.py:135 | the (categoria, nombre) order is transitive |
| Catalog.Insert | app.py:135 | inserting into a sorted list gives a sorted list holding the old entries plus the new one |
| Catalog.Sort | app.py:135 | the result is sorted by (categoria, nombre) and is a permutation of the input |
| Catalog.ShownPrice | app.py:142 | the stored price, or 0 when it is NULL; never negative when the stored price is not |
| Catalog.Entry | app.py:139-146 | the entry shows the row's id, name, image and category, its price or 0 when the price is NULL, and the given tipo |
| Catalog.Joined | app.py:125-146 | an entry is produced exactly when some catalog row with a category projects to it |
| Catalog.Listing | app.py:125-146 | a menu list is sorted by (categoria, nombre) and is a permutation of the joined rows |
| Catalog.ListingMember | app.py:125-146 | an entry is listed exactly when it is the projection of a catalog row that joins to a category |
| Catalog.ListingPricesNonNegative | app.py:142 | with non-negative stored prices, every listed price is non-negative, including those shown as 0 for NULL |
| Orders.ClientTotal | app.py:205 | items that state no quantity add nothing to monto_total, and with non-negative prices and quantities the total is non-negative |
| Orders.ClientLine | app.py:219-242 | the line belongs to the sale, has no client and no table, sets the plato key exactly for tipo "plato" and the bebida key exactly for tipo "bebida" (never both), writes the stripped client name in the name column of that same kind only, and carries quantity default 1 and price default 0 |
| Orders.ClientLines | app.py:218-242 | `/pedido` writes one line per item, in request order |
| Orders.MissingQtyAmount | app.py:205-221 | the client price summed over the items without cantidad; 0 when every item states its quantity |
| Orders.MissingCantidadCountsDifferently | app.py:205-242 | for every order, the lines of a `/pedido` sale add up to its monto_total plus the client price of each item without cantidad |
| Orders.ClientLinesTotal | app.py:205-242 | when every item states its quantity, the lines of a `/pedido` sale add up to its monto_total |
| Orders.Qty | app.py:299 | an absent or null quantity is 0 and a stated one is taken as given |
| Orders.FindRow | app.py:304-310 | a found row belongs to the catalog and has the requested id; nothing is found only for a null id or an id no row has |
| Orders.Resolve | app.py:303-308 | a found row is a dish exactly for tipo "plato" and a drink otherwise, and has the item's id; nothing is found only for a null id or an id no row of that catalog has |
| Orders.CatalogTotal | app.py:293-313 | with non-negative catalog prices the catalog total is non-negative |
| Orders.CatalogLine | app.py:331-355 | the line belongs to the sale and the table, has no client, sets the dish key and name for tipo "plato" and the drink key and name otherwise, with the row's id, name and price and the item's quantity |
| Orders.CatalogLines | app.py:324-355 | `/realizarPedido` writes exactly one line per billed item |
| Orders.CatalogLinesAt | app.py:324-355 | the k-th item, when billed, is written as the line at the position given by the number of billed items before it, with that item's id under the key its tipo selects, its quantity and its row's name and price |
| Orders.CatalogLinesShape | app.py:324-355 | every line written by `/realizarPedido` belongs to the sale and the table, has no client and a positive quantity, and names exactly one catalog row of the kind its key says, with that row's name and price |
| Orders.CatalogLinesTotal | app.py:293-355 | the lines of a `/realizarPedido` sale add up to the total computed from catalog prices |
| Orders.UnbilledItemsIgnored | app.py:296-310 | items with a non-positive quantity or no catalog row raise nothing and change neither the total nor the lines |
| Orders.NothingBilled | app.py:293-321 | an order with no billed item is priced at 0 and writes no line |
| Orders.EnsureMesa | app.py:278-290 | the table number ends up mapped to the returned id; an existing table keeps its id and the counter; a new one gets the next id, which no other table has; ids stay distinct and below the counter |
| Orders.EnsureMesaIdempotent | app.py:278-290 | resolving the same table number again finds the existing table, returns the same id and changes nothing |
| App.UsernameOf | app.py:19 | the username is empty exactly when the key is absent, null or only white space, and otherwise has no white space at either end |
| App.PasswordOf | app.py:20 | the password is taken as given, not stripped, and is empty only when the key is absent, null or the empty string |
| App.EmailOf | app.py:21 | the email is NULL exactly when the key is absent, null or only white space, and otherwise is the stripped address |
| App.RecordSaleKeepsConsistent | app.py:315-357 | committing a sale with the next sale id, lines of that sale that name only stored tables, and a table map that keeps every row, preserves consistency |
| App.AddUserKeepsConsistent | app.py:39-44 | inserting a user under a new username with the next id preserves consistency |
| App.Store.Register | app.py:17-55 | 400 on an empty username or password; 500 on a failed look-up, insert or commit; 409 on an existing username; otherwise 200 with the fresh id, and the user stored under the stripped username with the stripped email or NULL; every failure leaves the store unchanged |
| App.Store.Login | app.py:70-102 | 400 on empty credentials; 500 when the look-up fails; 200 with the user's id exactly when the user exists and the password matches the stored hash; 401 otherwise, the same for an unknown user and a wrong password |
| App.Store.GetMenu | app.py:117-176 | 500 when either query fails; otherwise both lists are sorted by (categoria, nombre) and are permutations of the joined catalogs |
| App.Store.CrearPedido | app.py:188-251 | 400 exactly for a falsy mesa or an empty or non-list items; 200 exactly when every item is well typed and no statement fails, appending one sale with the client total and one line per item; otherwise the store is unchanged |
| App.Store.PreparePedido | app.py:188-251 | the `/pedido` transaction: its status conditions, its 400 and 500 messages, and on 200 the sale and lines to commit, with no table touched |
| App.Store.RealizarPedido | app.py:262-362 | 400 exactly for a falsy mesa or items; 200 exactly when every billed item has a price and none of the transaction's statements fails, resolving the table, appending one sale with the catalog total (perdidas 0, ganancias the total) and its catalog lines; otherwise the store is unchanged |
| App.Store.PrepareRealizar | app.py:262-362 | the `/realizarPedido` transaction: its status conditions and error messages, and on 200 the table step, the sale and the lines to commit, whose amounts add up to the sale total |
| App.Store.Commit | app.py:357 | the staged table map, sale and lines become the stored ones and the invariant holds |
| App.SumClientPrices | app.py:205 | fails exactly when some item has a null price or quantity; otherwise gives the client total |
| App.WriteClientLines | app.py:218-242 | fails exactly when the fault strikes one of the line inserts; otherwise gives the lines of the client items |
| App.PriceFromCatalog | app.py:293-313 | raises exactly when a billed item's price is NULL or the fault strikes a catalog look-up; otherwise gives the catalog total |
| App.WriteCatalogLines | app.py:324-355 | raises exactly when the fault strikes a look-up or an insert of the second pass; otherwise gives the catalog lines of the billed items |
| App.RegisterThenLogin | app.py:17-98 | a user just registered logs in with the same password and gets the same id |
| App.RegisterTwice | app.py:33-35 | registering a username twice gives one success and one 409, and the first user is kept |
| App.OrderTwiceAtOneTable | app.py:278-290 | two successful orders for the same table number create at most one table row, and all their lines name that table |
| App.OrderOneDish | app.py:262-358 | one dish at 10.00 ordered twice for table 7 gives total 20.00, one sale and one line |
| App.OrderUnknownItem | app.py:296-321 | an order whose only item is unknown is accepted with total 0: the table is created, a sale is written and no line is added |

## Left out

- The Flask routing, CORS, the JSON parser and the `/` route are not modelled. A request is a datatype that already records which keys are absent, null or set.
- Ill-typed JSON is left out: a non-integer `mesa`, `id` or `cantidad`, an item that is not an object, or a price that is a string.
- bcrypt is not modelled. `Register` takes the hash as a parameter, because `gensalt` is random. `Login` takes `checkpw` as a function `matches`, and an exception raised by `checkpw` is not modelled.
- The connection factory is not modelled. A failed connection inside a handler's `try` is covered by a fault at statement 0. `/realizarPedido` opens its connection outside the `try` (lines 270-272), and that path is not modelled.
- conexion.py (the connection factory) and db.py (the setup script) are not modelled. Only the column facts cited in this section are taken from db.py.
- Logging (`print`) and the closing of cursors and connections are not modelled: they change no state the model keeps.
- Prices are integer cents instead of Python floats and PostgreSQL numerics, so rounding is not modelled.
- Concurrent requests are not modelled. Neither is the race that `ON CONFLICT DO NOTHING` resolves between two transactions.
- App.Store.Register: PostgreSQL does not roll back identity sequences, but the model restores its counters on failure. It promises only that an id is fresh, not which value it takes.
- Orders.EnsureMesa: `mesas.id_mesa` is an identity column (db.py:17), and PostgreSQL draws the next identity value before it checks the `ON CONFLICT` clause. The table insert of lines 278-283 therefore uses up a value even when the table exists, while the model keeps `nextMesaId` then. Exact ids (as in `OrderOneDish`) are those of a sequence without gaps; only freshness and distinctness carry over to the database.
- App.Store.CrearPedido: a rolled-back `venta` insert does not return its identity value in PostgreSQL, but the model restores `nextVentaId` on failure.
- App.Store.RealizarPedido: a rolled-back `mesa` or `venta` insert does not return its identity value in PostgreSQL, but the model restores `nextMesaId` and `nextVentaId` on failure.
- Errors that the database raises because of the data itself reach the model only as a `Fault` the caller chooses. One example is a `mesa` outside the `INT` range of `numero` (db.py:18). The scenarios run with `NoFault`, such as `OrderUnknownItem` for every `numero != 0`, so they assume the database accepts those values.
- The setup script's seeding of tables 1 to 4 (db.py:22-24) is not modelled: a new `Store` starts with no tables, and any state that keeps `Valid()` may be used instead.
- App.Store.RealizarPedido: when a truthy `items` is not a list, the text of the Python error is the placeholder `NotAListMessage`.
- Names are ordered by code point (the "C" collation). The database's locale collation is not modelled.
- The catalogs are sequences of rows already joined to their category names. Category rows are not stored separately.
- App.Store.CrearPedido: the `/pedido` insert leaves `perdidas` and `ganancias` to their column defaults. The schema is not part of this model, so the sale records them as NULL.
