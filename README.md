# tcgindex: the generic CRUD table

tcgindex exposes its trading-card entities over HTTP with one block of handlers
per entity: create, list, get, update, delete. The blocks are identical apart
from the entity's name (tcgindex/main.py has one for LocalizedCardName and the
same again for CardRepresentation). Every table entity inherits the same row
envelope, `TimestampModel`: a primary key that storage assigns, a creation
stamp that storage fills at insert, and a nullable last-update stamp that
storage refreshes when the row is updated.

This project models that block once, for any entity:

- `models.dfy` (module `Models`) is the row: the envelope (`id`, `createdAt`,
  `updatedAt`) around a map of attribute columns. Column values include
  `Null`, so a field supplied as `None` is kept apart from a field not supplied.
  It also holds the entity classes of tcgindex/models.py and each one's
  schema: its declared attribute columns and which of them are NOT NULL (only
  Game declares one, `name`). `Draft` builds a row from a payload as
  `from_orm` does: every declared column gets a value, `Null` when it was not
  supplied. `Supplied` is the set of supplied declared fields that
  `dict(exclude_unset=True)` yields.
- `tables.dfy` (module `Tables`) is a table as a value: its schema,
  `map<int, Row>` from key to row, the next key and an abstract clock. The five
  handlers are functions from one table value to the next, each with its
  contract. Lemmas relate several requests.
- `resource.dfy` (module `Resource`) is the table as an object. A `Table` class
  holds the map in a field. `Create`, `Update` and `Delete` change it in place.
  Each is proved to leave the table exactly as the matching function of
  `Tables` says. `ApplyPatch` is the `setattr` loop of the update handler. The
  read-only handlers (`Get`, `List`) are functions of `Table.State()`.
  `NameLifecycle` drives one row through a request of every kind, and
  `TwoResources` shows the two handler blocks as independent tables.
- `wrappers.dfy` (module `Wrappers`) holds `Option` and `Result`.

Modelling decisions:

- Keys come from a counter. The key storage hands out is never in the table,
  and keys start at 1.
- Time is a counter in the table. Every write that stamps a row advances it, so
  a row's `updatedAt` always comes after its `createdAt`.
- `updatedAt` comes from the column's `onupdate` hook (tcgindex/models.py:13-15).
  That hook fires only when storage issues an UPDATE. An UPDATE is issued only
  when the assigned fields change the row. Every stored row holds exactly its
  entity's declared columns, so supplying `None` for a column that is already
  `None` is no change. A patch that changes nothing therefore leaves the row
  untouched, `updatedAt` included (`UpdateWithoutChange`). This is also why
  sending the same patch twice has the same effect as sending it once
  (`UpdateIdempotent`).
- A write that would leave a NOT NULL attribute column absent or null is
  refused. On create the payload's validation refuses it
  (tcgindex/main.py:5), before anything is added. On update the database
  refuses it at commit (tcgindex/main.py:32), since assigning fields onto a
  stored row is not validated. Either way nothing is stored. The model
  returns `Rejected` and leaves the table unchanged.
- Listing returns rows in key order. SQL promises no order; this model fixes
  one.

The update handler is a PUT (tcgindex/main.py:23) that assigns only the
supplied fields. The delete handler removes the row unconditionally
(tcgindex/main.py:41), without looking for rows that refer to it. No handler
checks foreign keys or the uniqueness of a catalog's name.

## Model

| member | source | states |
|---|---|---|
| `Models.SchemaOf` | tcgindex/models.py:17-30 | Game is the only entity declaring an attribute column, and its only column is the required `name`; Catalog, Expansion, Card and Printing declare none beyond the envelope; required columns are declared columns |
| `Models.Draft` | tcgindex/main.py:5 | the row built from a payload has no key and no timestamps yet, holds exactly the declared columns, each with its supplied value or `Null` when not supplied |
| `Models.Supplied` | tcgindex/main.py:28 | the fields to assign are exactly the declared columns the client supplied, each with its supplied value (`Null` included) |
| `Tables.Get` | tcgindex/main.py:16-21 | succeeds exactly when a row has the id; the row returned carries that id; otherwise the error is NotFound and no row is returned |
| `Tables.List` | tcgindex/main.py:11-14 | every row of the table appears, no other row does, and each appears once (strictly increasing keys) |
| `Tables.Create` | tcgindex/main.py:3-9 | the row built from the payload (`Draft`) is stored under a key absent before, with `id` set to that key, `createdAt` stamped by storage later than every earlier stamp and `updatedAt` null; `Get` on the new key returns that row and `Get` on every other key is unchanged; a payload that leaves a required column unsupplied or null is refused with nothing changed; the table invariant is kept |
| `Tables.Overlay` | tcgindex/main.py:28-30 | after the supplied fields are assigned, every supplied field has its supplied value (even `Null`), every other field keeps its prior value, and no field is lost |
| `Tables.Update` | tcgindex/main.py:23-34 | NotFound exactly when the id is absent, with the table unchanged; otherwise the row's fields become its old fields overlaid with the supplied declared columns, its `id` and `createdAt` stay, the set of keys and every other row stay, `updatedAt` is stamped with a new time when the row changed and the table is unchanged when it did not; refused (`Rejected`, never NotFound) with nothing changed if a required column would become null |
| `Tables.UpdateWithoutChange` | tcgindex/main.py:28-33 | a patch whose declared columns all carry the value the row already holds (`None` onto `None` included) returns the row as it was and leaves the table, `updatedAt` included, unchanged |
| `Tables.Delete` | tcgindex/main.py:36-43 | NotFound with the table unchanged when the id is absent; otherwise exactly that key is removed, the row is returned as it was, `Get` on it now fails with NotFound and every other key is unchanged |
| `Tables.ListAfterCreate` | tcgindex/main.py:4-14 | after a successful create the listing is the old listing with the new row appended; after a refused one it is unchanged |
| `Tables.ListAfterUpdate` | tcgindex/main.py:25-33 | after an update the listing has the same length and order, and only the updated row's entry differs |
| `Tables.UpdateIdempotent` | tcgindex/main.py:28-33 | sending the same patch a second time changes nothing and returns the same row (or the same error) as the first |
| `Tables.OverlayIdempotent` | tcgindex/main.py:29-30 | assigning the same fields twice gives the same fields as assigning them once |
| `Tables.GameNameRequired` | tcgindex/models.py:20-22 | in a Game table every row has a non-null `name`, and creating a Game without one is refused with nothing changed |
| `Resource.ApplyPatch` | tcgindex/main.py:28-30 | the `setattr` loop over the supplied fields computes exactly `Overlay` of the row's fields and the patch |
| `Resource.Table.Create` | tcgindex/main.py:4-9 | keeps the table invariant and leaves the table and its result exactly as `Tables.Create` of the old table |
| `Resource.Table.Update` | tcgindex/main.py:24-34 | keeps the table invariant and leaves the table and its result exactly as `Tables.Update` of the old table |
| `Resource.Table.Delete` | tcgindex/main.py:37-43 | keeps the table invariant and leaves the table and its result exactly as `Tables.Delete` of the old table |

## Left out

- The web framework: routes and path strings, `Depends(get_session)`, `response_model` serialisation and every status code other than not-found. They carry no logic of the table.
- Session and transaction mechanics (`add`, `commit`, `refresh`, `exec`, `get`): each request is one atomic step on the table. Concurrency and isolation are storage concerns.
- Request validation and type coercion of payloads: the Create and Update projections are not defined in tcgindex/models.py. The model keeps a payload's declared columns with their values as sent and drops every other key. The only column rule modelled is NOT NULL; a column's declared type (`name: str`) is not checked.
- Real timestamps (`CURRENT_TIMESTAMP`, `func.now()`): replaced by a strictly increasing counter, so two writes never share a stamp, which a clock with second resolution allows.
- Key choice: the model never reuses a key. A database that hands out one more than the largest key still present may reuse a deleted largest key. Both choose a key absent from the table.
- Writes to the envelope columns through a payload or patch: attribute fields are kept apart from `id`, `createdAt` and `updatedAt`, since the Create and Update projections that would decide this are not defined in tcgindex/models.py.
- Entity-specific attribute layouts: the entities imported by tcgindex/main.py (LocalizedCardName, CardRepresentation and others) are not defined in tcgindex/models.py, so rows are generic.
- Foreign-key checks, name uniqueness and refusing to delete a row that others depend on: no handler in tcgindex/main.py does any of these.
- Storage failures other than a NOT NULL violation (lost connection, schema mismatch).
