# ATM Booth Finder: the freshness-gated ATM cache, in Dafny

This project models the core of the ATM Booth Finder web service: the record
store of ATM rows, the list endpoint `GET /api/atms` that refreshes that store
when nothing in it is fresh, the detail endpoint `GET /api/atms/<id>`, and the
structure of the mock-record generator the refresh calls.

- `generator.dfy` (module `Generator`): the three fixed vocabularies (12 bank
  names, 10 street names, 6 services); the random draws of one record as a
  `Draw` value whose ranges `ValidDraw` states; `MakeAtm`, one loop iteration
  of the generator; and `GenerateMockAtms`, the loop that appends one record
  per draw. The name, address and services rules are stated as independent
  predicates (`WellFormedName`, `WellFormedAddress`, `WellFormedServices`).
  An address is read back by `ParseAddress`, which accepts only a canonical
  numeral (no leading zero) before the first space. Formatting and parsing
  are proved inverse in both directions, so a parse fixes the address exactly.
- `store.dfy` (module `AtmStore`): the `Atm` row; time as an integer number of
  microseconds with a 15-minute window (`FreshWindow`); the freshness query
  `FreshRecords`; the table after a refresh, `Refreshed`; the primary-key
  lookup `Lookup`; and the class `AtmTable`, which holds the rows and the
  next row id, with the methods `ReplaceAll`, `ListNear` and `GetDetail`.
- `wrappers.dfy` (module `Wrappers`): `Option`, used for not-found and for
  parses that fail.

The random module's outputs are parameters. The batch size `count` must lie
in 5..15, and each record's draws must satisfy `ValidDraw`. The clock is
read once for the freshness threshold (`now`) and once more for every row
inserted on a refresh (app.py:743). Those readings are the `stamps`
parameter: none earlier than `now`, and never decreasing (`ClockReadings`).

Behaviour of the source that the model keeps:
- On a cache hit the list endpoint returns only the fresh rows (app.py:753),
  not every stored row. The rows of one batch carry slightly increasing
  stamps, so a request just after the first rows' window has passed selects
  only the later rows of the batch. The hit is then partial: the store stays
  unchanged and only part of it is returned. `FreshIsSuffix` proves that the
  returned rows are always the latest rows of the table, and
  `FirstFreshSelectsAll` that they are the whole table when the first row is
  fresh. `PartialHitExample` exhibits a partial hit.
- Row ids are SQLite primary keys of a table without AUTOINCREMENT. Once every
  row has been deleted, the next id is 1 again. So the model resets its id
  counter on each refresh, and ids are distinct only within the current
  table. They are not unique across the process lifetime.
- Positions near the poles are not turned into an error: the source divides by
  `abs(cos(lat))` unguarded, and that arithmetic is outside this model.

## Model

| member | source | states |
|---|---|---|
| `Generator.GenerateMockAtms` | app.py:620-687 | returns exactly `count` records, the i-th built from the i-th draw, and every one of them is well formed |
| `Generator.MakeAtm` | app.py:661-685 | the record is well formed: its name is the chosen bank followed by " ATM", its address parses as exactly the chosen number and street, and its services are the sampled vocabulary entries in sample order |
| `Generator.SampleServicesWellFormed` | app.py:675-676 | a sample of two to four distinct vocabulary indices yields two to four distinct services, all from the vocabulary |
| `Generator.MockAtmsWellFormed` | app.py:661-685 | every record built from valid draws has a well-formed name, address and services list |
| `Generator.DecimalString` | app.py:672 | the printed street number is a canonical numeral: non-empty digits, with a leading zero only for zero itself |
| `Generator.DecimalRoundTrip` | app.py:670-672 | reading the printed number back gives the number |
| `Generator.CanonicalRoundTrip` | app.py:672 | every canonical numeral is the one printed for its value, so printing is onto the canonical numerals |
| `Generator.AddressRoundTrip` | app.py:670-672 | an address "number street" splits back at its first space into that number and that street |
| `Generator.AddressParseFormats` | app.py:670-672 | an address that parses is exactly the formatting of the number and street it parses to, so a leading-zero numeral is never accepted |
| `Generator.AllServicesDistinct` | app.py:655-658 | the six service names are pairwise distinct, so a sample without repeated indices has no repeated names |
| `AtmStore.FreshRecords` | app.py:717-718 | a row is selected exactly when it is in the table and was fetched at or after `now` minus 15 minutes (inclusive) |
| `AtmStore.AllFreshSelected` | app.py:717-718 | when every row is fresh, the query selects the whole table in order |
| `AtmStore.NoneFreshSelected` | app.py:717-718 | when no row is fresh, the query selects nothing, which is the miss condition |
| `AtmStore.FirstFreshSelectsAll` | app.py:718-753 | with fetch times in table order, a fresh first row means a hit returns the whole table |
| `AtmStore.FreshIsSuffix` | app.py:718-753 | with fetch times in table order, the rows a hit returns are a suffix of the table |
| `AtmStore.PartialHitExample` | app.py:717-753 | a batch stamped 10 and 50 microseconds in, requested 15 minutes plus 25 microseconds in, selects only its second row |
| `AtmStore.RefreshedShape` | app.py:730-747 | after a refresh the table is the batch in order, with distinct ids 1..n, each row stamped with its own clock reading, fetch times non-decreasing |
| `AtmStore.RefreshedAppend` | app.py:736-745 | inserting the batch's next record extends the refreshed prefix by one row with the next id and its own stamp |
| `AtmStore.RefreshedStaysFresh` | app.py:717-718 | a table refreshed after time t is wholly fresh at any time up to 15 minutes after t |
| `AtmStore.RefreshedExpires` | app.py:717-722 | a refreshed table is wholly stale once 15 minutes have passed since its last row, so the next list request misses |
| `AtmStore.MissReplacesEveryRow` | app.py:730-747 | on a miss no row of the previous table appears in the refreshed table |
| `AtmStore.Lookup` | app.py:777-779 | a found row is in the table and has the requested id; not-found exactly when no row has that id |
| `AtmStore.LookupFindsRow` | app.py:777 | with distinct ids, the lookup of a row's id returns that very row |
| `AtmStore.LookupRefreshed` | app.py:777-781 | after a refresh, a lookup returns the generated record for each issued id 1..n and not-found for any other id |
| `AtmStore.AtmTable.constructor` | app.py:64-66 | a newly created table is empty and valid |
| `AtmStore.AtmTable.ReplaceAll` | app.py:730-747 | deleting every row and inserting the batch, one clock reading per row, leaves exactly the refreshed batch, with a valid table |
| `AtmStore.AtmTable.ListNear` | app.py:716-753 | hit: returns the fresh rows, a suffix of the table and the whole table when its first row is fresh, and leaves the table unchanged. Miss: the table becomes the new batch of `count` rows with their stamps, all fresh, none of the old rows survive, and the whole table is returned |
| `AtmStore.AtmTable.GetDetail` | app.py:776-781 | returns a row exactly when some row has the id, and then it is that row; the table is not changed |
| `AtmStore.RepeatWithinWindow` | app.py:716-753 | a second list request within 15 minutes of a refresh is a hit that returns the same rows as the first |

## Left out

- HTTP routing, JSON encoding, the 404 and 500 responses and logging: transport and I/O. The 404 path is the `None` result of `GetDetail`.
- The HTML/CSS/JS map page: user interface.
- SQLAlchemy and SQLite persistence, the JSON column type and table creation: the table is an in-memory sequence.
- AtmStore.AtmTable.constructor: `db.create_all()` keeps an existing database file, so the table starts empty only on a first start. Persistence across restarts is not modelled.
- The coordinate arithmetic (metres to degrees, the cosine correction, the random offsets): floating point. Each `Draw` carries its coordinates as given reals, and the generator's `lat`, `lng` and `radius` parameters are therefore not modelled.
- Parsing the query parameters and their defaults: I/O.
- The ISO formatting of `fetched_at` in `to_dict`: output formatting.
- The commit between the delete and the inserts, and what concurrent readers may observe: concurrency.
- Rows with a NULL `fetched_at`: only the refresh writes rows, and it always stamps them.
- The result order of an unordered query: the model uses insertion order.
- Clock adjustments: the clock readings of one request are taken never to go backwards (`ClockReadings`). A system clock set back during a refresh is not modelled.
