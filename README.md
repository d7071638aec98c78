# Healer booking service — a verified model

This project models the service logic of a small booking backend. Clients
register **healers** and book sessions with them. The backend keeps both in
a document store with a "healer" collection and a "booking" collection.

The model covers four endpoints and the schemas that gate them:

- **POST /healers** stores a validated healer record under a fresh store
  identifier, or answers 500 when the insert fails.
- **GET /healers** returns the fetched healer documents. In each one the
  store identifier `_id` is replaced by its string form under `id`.
- **POST /bookings** answers in one of four ways:
  - 400 when `healer_id` is not a well-formed identifier;
  - 404 when no such healer exists, or there is no database;
  - 500 when the healer lookup raises, or the insert fails;
  - otherwise the booking is inserted and its identifier is returned.
- **GET /bookings** processes the fetched bookings in three steps:
  - renames each identifier as above;
  - attaches a `{id, name, specialty, avatar_url}` summary of the referenced
    healer when the reference parses and resolves, and silently skips it
    otherwise;
  - orders the result by `created_at`, newest first. A missing stamp counts
    as 0, and equal stamps keep their fetch order.
- **Schemas.** A healer payload and a booking payload are validated field by
  field, with length bounds, a rating range, required and optional fields
  and the rating default of 4.9.

Layout, one module per file:

- `wrappers.dfy` (`Wrappers`): `Option` and `Result`.
- `object_ids.dfy` (`ObjectIds`): store identifiers. These are twelve bytes,
  parsed from exactly 24 hex digits of either case and printed as 24
  lower-case digits. The module proves the parse/print round trips.
- `documents.dfy` (`Documents`): documents as maps from field name to value,
  the shape of a stored document, and what the storage helper writes.
- `schemas.dfy` (`Schemas`): payload validation, the validity predicates
  `ValidHealer` and `ValidBooking`, and the fields a record is dumped to.
- `listing.dfy` (`Listing`): renaming, enrichment, and the stable descending
  order. The order is defined as a function and carried out in place on an
  array by insertion sort. It is proved to be a permutation, sorted, stable,
  and the unique arrangement with those properties.
- `service.dfy` (`Service`): the class `Store`, whose `healers` map and
  `bookings` sequence the endpoint methods update.

The driver's choices are parameters of the endpoint methods:

- the identifier it generates;
- the `created_at` stamp the storage helper adds, if any;
- whether a call raises;
- which documents a fetch returns.

Email syntax (the foreign `EmailStr` validator) is a parameter `isEmail`.

## Model

| member | source | states |
|---|---|---|
| `ObjectIds.ParseObjectId` | main.py:79-83 | a `healer_id` converts to an identifier exactly when it is 24 characters long and every character is a hex digit |
| `ObjectIds.ParseHexBytesAccepts` | main.py:81 | hex decoding succeeds exactly on an even number of hex digits |
| `ObjectIds.IdString` | main.py:69 | the string form of an identifier is 24 lower-case hex digits |
| `ObjectIds.ParseIdString` | main.py:117 | printing an identifier and parsing the result gives the same identifier back |
| `ObjectIds.IdStringOfParse` | main.py:117-120 | a parsed identifier prints as the lower-case form of the string it was parsed from |
| `ObjectIds.IdStringInjective` | main.py:69 | distinct identifiers have distinct `id` strings |
| `Documents.Stamped` | main.py:58 | an inserted document carries the generated identifier under `_id`; it has `created_at` exactly when the helper stamps one; every payload field is kept |
| `Schemas.ParseHealer` | schemas.py:12-19 | an accepted healer payload yields a record satisfying every field constraint, holding the sent name, specialty, bio, email, avatar URL and rating, with a left-out or null optional field absent, except a left-out rating, which becomes 4.9; a rejected one names at least one field |
| `Schemas.ParseHealerKeepsFields` | schemas.py:14-19 | an accepted healer keeps the name, specialty, bio, email, avatar URL and a sent rating exactly as sent |
| `Schemas.ParseHealerComplete` | schemas.py:12-19 | every valid healer record, sent in full with any extra fields, is accepted and comes back unchanged |
| `Schemas.ParseHealerIgnoresExtra` | schemas.py:12-19 | fields the healer schema does not declare never affect validation or reach the record |
| `Schemas.HealerNameBounds` | schemas.py:14 | a name shorter than 2 or longer than 100 characters is rejected, and "name" is among the errors |
| `Schemas.SpecialtyUnbounded` | schemas.py:15 | the specialty needs at least 2 characters and has no upper bound |
| `Schemas.AvatarUrlUnconstrained` | schemas.py:18 | the avatar URL is never a reason for rejection |
| `Schemas.ParseHealerAccepts` | schemas.py:12-19 | a healer payload is accepted exactly when name (2..100 characters) and specialty (at least 2) are sent, and bio, email and rating, when sent, meet their constraints; every other field may be left out or null |
| `Schemas.RatingDefault` | schemas.py:19 | a rating left out or null is never an error; when the payload is accepted, a left-out rating becomes 4.9 and a null rating stays absent |
| `Schemas.MinimalHealerAccepted` | schemas.py:12-19 | a payload with only a valid name and specialty is accepted, with no bio, email or avatar URL and a rating of 4.9 |
| `Schemas.RatingRange` | schemas.py:19 | "rating" is among the errors exactly when a rating is sent and lies outside [0, 5] |
| `Schemas.HealerFields` | schemas.py:12-19 | a healer is stored with exactly its six schema fields, with name, specialty and avatar URL as given |
| `Schemas.HealerFieldsRoundTrip` | main.py:57-58 | the stored healer document, with or without the helper's stamps, reads back as exactly the record that was validated, every field included |
| `Schemas.HealerOfFields` | schemas.py:12-19 | a document that reads back as a healer holds that healer's dumped fields with the same values |
| `Schemas.ParseBooking` | schemas.py:21-27 | an accepted booking payload satisfies every field constraint and holds the sent customer name, customer email, `healer_id`, notes and `scheduled_for`, with a left-out or null optional field absent; a rejected one names at least one field |
| `Schemas.ParseBookingComplete` | schemas.py:21-27 | every valid booking record, sent in full with any extra fields, is accepted and comes back unchanged |
| `Schemas.ParseBookingAccepts` | schemas.py:21-27 | a booking payload is accepted exactly when customer name (2..100 characters), customer email and `healer_id` are sent, and notes, when sent, have at most 1000 characters |
| `Schemas.ParseBookingKeepsFields` | schemas.py:23-27 | an accepted booking keeps customer name, customer email and `healer_id` as sent; notes and `scheduled_for` are present exactly when sent, with the sent values |
| `Schemas.CustomerFieldsRequired` | schemas.py:23-24 | a missing customer name, or one outside 2..100 characters, is rejected; a missing customer email is rejected |
| `Schemas.HealerIdAnyString` | schemas.py:25 | `healer_id` is rejected only when it is missing; any string passes at schema level |
| `Schemas.NotesBound` | schemas.py:26 | notes that are sent are rejected exactly when longer than 1000 characters |
| `Schemas.ParseBookingIgnoresExtra` | schemas.py:21-27 | fields the schema does not declare, such as `created_at`, never affect validation or reach the record |
| `Schemas.BookingFields` | schemas.py:21-27 | a booking is stored with exactly its five schema fields and no `created_at` or `_id`; `healer_id` is kept as a string |
| `Schemas.BookingFieldsRoundTrip` | main.py:89-90 | the stored booking document, with or without the helper's stamps, reads back as exactly the record that was validated, every field included |
| `Schemas.BookingOfFields` | schemas.py:21-27 | a document that reads back as a booking holds that booking's dumped fields with the same values |
| `Listing.RenameIdRenames` | main.py:113-114 | after renaming, `_id` is gone, `id` holds the string form of the old `_id`, and every other field is unchanged |
| `Listing.RenameEach` | main.py:68-70 | the healer list is renamed in place, element by element, with order and length kept |
| `Listing.SummaryFields` | main.py:119-124 | a healer summary has exactly the keys id, name, specialty and avatar_url; `id` is the healer's identifier string; the others are copied from the healer or null |
| `Listing.EnrichSpec` | main.py:112-127 | a listed booking is renamed and keeps `healer_id` and all other fields; it gets the referenced healer's summary when the reference resolves; otherwise its `healer` field is untouched |
| `Listing.SummaryIffResolves` | main.py:116-126 | for a booking stored without a `healer` field, the listing carries a summary exactly when `healer_id` parses and names a stored healer |
| `Listing.SummaryNamesReferencedHealer` | main.py:117-120 | the attached summary's `id` is the referenced identifier, in lower case when the booking holds it as a string |
| `Listing.EnrichAll` | main.py:112-127 | the enriched list has one entry per fetched booking, in fetch order |
| `Listing.EnrichEach` | main.py:112-127 | the enrichment loop appends every fetched booking exactly once, enriched, in fetch order |
| `Listing.SortPermutes` | main.py:129 | the ordering is a permutation |
| `Listing.SortSorted` | main.py:129 | the ordering puts larger `created_at` first, with a missing stamp counting as 0 |
| `Listing.SortStable` | main.py:129 | among documents with equal stamps, the ordering keeps the original relative order |
| `Listing.SortedStableUnique` | main.py:129 | any arrangement that is sorted newest first and keeps the original order among equal stamps is the same sequence |
| `Listing.ListingOrderExample` | main.py:129 | bookings stamped 100, 300 and 200 are listed as 300, 200, 100 |
| `Listing.SortByCreatedAtDesc` | main.py:129 | the in-place sort leaves the array holding exactly the stable newest-first ordering of its old contents |
| `Service.Store.CreateHealer` | main.py:55-61 | the status is 500 exactly on a store failure, and then nothing changes; otherwise it is 200 and exactly one healer is added under the returned fresh identifier, reading back as the record sent; bookings never change |
| `Service.Store.CreateBooking` | main.py:76-93 | status 400 exactly when `healer_id` does not parse; 404 exactly when it parses but there is no database or the lookup finds no healer; 500 exactly when the lookup raises, or the insert fails after a successful lookup; 400 is decided before 404, and both before any write; on 200 exactly one booking is appended, reading back as the record sent, and its identifier returned; failures change nothing; healers never change |
| `Service.Store.ListHealers` | main.py:63-73 | the listing has the fetched documents in the same order and number, each renamed; a failed fetch gives 500 |
| `Service.Store.ListBookings` | main.py:95-132 | the listing is a permutation of the enriched fetch, sorted newest first, stable, and equal to the stable sort of the enriched fetch; with no database no booking resolves; a failed fetch gives 500 |

## Left out

- Web framework setup, CORS policy, process start-up and port binding are framework and process I/O.
- The root endpoint and the diagnostic `/test` endpoint are left out. They read environment variables and inspect the database.
- The `database` module (`db`, `create_document`, `get_documents`) is not part of this model. It is replaced by parameters:
  - the identifier the driver generates;
  - the optional integer `created_at` stamp the storage helper adds;
  - whether the insert or lookup raises;
  - which documents a fetch returns.
- A fetch is only assumed to return documents of the collection, each at most once, and at most `limit` of them when `limit` is positive. No order is assumed.
- Any other field the storage helper may add, such as an update stamp, is not modelled.
- Service.Store.CreateHealer: the model assumes an insert fails when there is no database. The helper's behaviour there cannot be seen.
- Service.Store.CreateHealer and Service.Store.CreateBooking: the model returns the identifier itself, not the helper's string form of it.
- The aggregation pipeline built in `list_bookings` is dead code and is not modelled. In particular, its fallback of a non-integer `limit` to 100 never reaches the fetch. The fetch receives `limit` unchanged.
- The listing does not claim to return the most recent `limit` bookings. Truncation happens at fetch time, before the ordering.
- Error messages passed into 500 responses are reduced to the single status.
- Validation errors are reduced to the list of failing field names.
- Service.Store.ListBookings: a driver error raised by an individual healer lookup during enrichment is not modelled. The source swallows such an error and leaves that booking without a summary. The model takes every lookup to succeed.
- Identifier parsing accepts exactly 24 hex digits. The foreign converter's tolerance of whitespace between digit pairs is not modelled. A null `healer_id` makes the converter generate a new identifier, and the model treats it as not resolving.
- Email syntax and its normalisation belong to a foreign validator. The validator is the parameter `isEmail`.
- Schemas.ParseHealer, Schemas.ParseHealerKeepsFields, Schemas.ParseHealerComplete, Schemas.ParseBooking, Schemas.ParseBookingKeepsFields and Schemas.ParseBookingComplete: `EmailStr` stores a normalised address (lower-cased domain, surrounding spaces stripped, a `Name <addr>` form reduced to the address); the model keeps the address as sent.
- Pydantic's coercion of non-string values into string fields is not modelled.
- `rating` is a `real`, checked against its range only.
- `scheduled_for` is an opaque timestamp.
- `created_at` is an optional integer. Comparing a datetime stamp with the default 0, which raises in Python, is outside the model. A `created_at` of any other type sorts as 0. This cannot arise for stored documents, because the store invariant keeps stamps integer.
- Concurrency between the existence check and the insert of a booking is not modelled. Each endpoint runs as one sequential step.
