# clinic_ms in Dafny

A verified model of the clinic back end: the store behind its patients,
appointments, medicines and users, the token authentication and role gate
that protect every endpoint, the best-effort Redis cache, and the
decisions each HTTP endpoint makes.

Each database table is a map from primary key to row, held in the fields
of one `Store.Database` object together with the next key each table will
hand out. Its invariant `Valid()` says:

- a row's key is its id and lies below the next key;
- every appointment's patient exists;
- usernames are unique.

The code forms of the source are kept:

- **Queries** are functions of the tables. `get`, `list_*` and
  `search_medicines` are a filter, an `ORDER BY`, then `OFFSET`/`LIMIT`,
  built from the generic `Tables.Rows`, `Filter`, `Sort` and `Page`.
- **Writes** are methods that change the table fields:
  - inserts;
  - `reschedule` and `cancel`;
  - stock adjustment;
  - user creation.
- **The cache** is a `Caching.Cache` object. It holds an optional client, the
  Redis keyspace (a map from key to entry with an expiry) and the server
  clock.
- **The service classes** hold the database they were built with.
- **The routers** are methods when they write the tables or the cache, and
  functions otherwise. Each gated route passes its role gate before it
  validates its query parameters and calls its service. User registration
  and login have no gate.

Modelling choices:

- **Time** is whole seconds. The current time is a parameter wherever the
  source reads the clock.
- **A failed Redis call** is a `fault` flag on that operation. A faulty call
  behaves like an absent client, because the source logs the exception and
  swallows it.
- **bcrypt and JWT** are replaced by stand-ins that keep only what the clinic
  relies on:
  - `Passwords`: a digest verifies exactly the password it was made from,
    whatever its salt;
  - `Jwt`: decoding an encoded payload gives it back until its `exp`, and
    gives nothing after it.
- **Role gate.** The gate compares the role stored in the users table with the
  route's allow-list. The token's `role` claim is decoded and never used
  (`Auth.RoleClaimIgnored`). The user row is read again on every request,
  so a role changed after login takes effect at the next request.
- **Cache invalidation.** Creating a patient or a medicine writes a one-second
  marker key and evicts nothing. A cached search page can therefore outlive
  the table it was computed from by up to five minutes
  (`MedicineRoutes.AddLeavesSearchPages`, `MedicineRoutes.CachedSearchReplays`).
- **Cached patient records** on the other hand stay current, as long as the
  Redis database starts out coherent with the patients table, for example
  empty, and serves no other database. No endpoint changes a patient row,
  and no other cache write lands on a `patient:<id>` key (`PatientCache`).
  A record left behind by an earlier database is served as it was
  (`PatientCache.LeftoverRecordIsStale`).

## Model

| member | source | states |
|---|---|---|
| Store.Database.constructor | app/main.py:11 | `create_all` gives four empty tables whose keys start at 1; the store invariant holds |
| Models.AddKeepsUsernamesUnique | app/models.py:48 | adding a row whose username no other row has keeps the unique constraint on `username` |
| Passwords.PasswordHash | app/auth.py:27-28 | the digest verifies the password it was made from and records the salt drawn for it |
| Passwords.HashVerifiesExactly | app/auth.py:23-28 | `verify_password(attempt, get_password_hash(p))` holds exactly when `attempt == p`, for every salt |
| Passwords.SaltedDigestsDiffer | app/auth.py:27-28 | hashing one password with two salts gives two different digests, both of which verify it |
| Jwt.Decode | app/auth.py:57 | a decoded payload is never expired: `now <= exp` |
| Jwt.DecodeEncode | app/auth.py:36 | decoding an encoded payload before its `exp` gives back the same claims and `exp` |
| Jwt.DecodeExpired | app/auth.py:57 | an encoded payload whose `exp` has passed does not decode (a `JWTError`) |
| Caching.SessionKey | app/cache.py:56-57 | the session key is `"session:"` followed by the token, and only that |
| Caching.SetThenGet | app/cache.py:42-47 | within its TTL, GET returns exactly what SETEX stored under the key; after it, nothing |
| Caching.SetKeepsOtherKeys | app/cache.py:47 | SETEX under one key changes what GET and HGETALL return under no other key |
| Caching.SessionThenRead | app/cache.py:52-66 | a non-empty session written under a fresh key reads back as exactly that mapping for 86400 seconds |
| Caching.Cache.constructor | app/cache.py:14-28 | a cache over the client connected at start-up (or none) and a Redis database holding whatever keyspace it already holds |
| Caching.Cache.Get | app/cache.py:30-40 | None without a client or when the call fails; otherwise the live string under the key, and None for a hash (WRONGTYPE) |
| Caching.Cache.Set | app/cache.py:42-50 | without a client or on failure nothing changes; otherwise the key holds the value for `ttl` seconds, and a TTL that is not positive writes nothing |
| Caching.Cache.CreateSession | app/cache.py:52-59 | without a client or on failure nothing changes; otherwise the fields are merged into the hash at `session:<token>` with a 86400-second TTL |
| Caching.Cache.GetSession | app/cache.py:61-69 | None without a client, on failure, or for an empty mapping; otherwise the stored mapping, which is never empty |
| Crud.CreatePatient | app/crud.py:16-25 | exactly one row is added, under a fresh id, carrying the payload's fields; the store invariant is kept |
| Crud.PatientResults | app/crud.py:39-47 | a patient is in the results exactly when it is stored and matches `q` (every patient for `q` None or "") |
| Crud.GetPatient | app/crud.py:28-32 | a row of the table; with keys equal to ids, found exactly when some row has that `id`, and then that row |
| Crud.ListPatients | app/crud.py:35-49 | `OFFSET skip LIMIT limit` of the results: position `i` holds result `skip + i`; `limit` rows, fewer on the last page, none past it; every row listed matches `q` |
| Crud.PatientRowsById | app/crud.py:47 | the patients table read in key order is in strictly ascending id order |
| Crud.ListPatientsById | app/crud.py:47 | the results, and so every page of them, are in strictly ascending id order |
| Crud.ListPatientsComplete | app/crud.py:39-47 | nothing that matches is dropped: for any page size, every patient `q` matches is on some page |
| Crud.CreateAppointment | app/crud.py:55-72 | an unknown patient gives "Patient not found" and no row; otherwise exactly one row with the payload's patient, time and reason and status "scheduled" |
| Crud.GetAppointment | app/crud.py:75-76 | a row of the table; with keys equal to ids, found exactly when some row has that `id`, and then that row |
| Crud.ScheduleIsOrder | app/crud.py:83 | ordering by `scheduled_at` is a total preorder, so the sorted listing is well defined |
| Crud.StatusHits | app/crud.py:80-82 | an appointment is kept exactly when it is stored and has the requested status (every appointment when none is given); in a table keyed by id no row is kept twice |
| Crud.AppointmentResults | app/crud.py:80-83 | a permutation of the filter's rows (same multiset), ordered by `scheduled_at`; in a table keyed by id each matching row occurs exactly once |
| Crud.ListAppointments | app/crud.py:79-85 | `OFFSET skip LIMIT limit` of the results: position `i` holds result `skip + i`; `limit` rows, fewer on the last page, none past it; each with the requested status, in `scheduled_at` order, none twice in a table keyed by id |
| Crud.ListAppointmentsComplete | app/crud.py:80-83 | for any page size, every appointment with the requested status is on some page |
| Crud.RescheduleAppointment | app/crud.py:88-97 | an unknown id returns None and changes nothing; otherwise only that row's `scheduled_at` changes, and the updated row is returned |
| Crud.UpdateAppointmentStatus | app/crud.py:100-109 | an unknown id returns None and changes nothing; otherwise only that row's `status` changes, and the updated row is returned |
| Crud.WithStatusIdempotent | app/services/appointment_service.py:45 | setting a status twice is setting it once, so canceling is idempotent |
| Crud.RescheduleKeepsStatus | app/crud.py:93 | rescheduling keeps every row's status, including a canceled one, and no row other than the target changes |
| Crud.CreateMedicine | app/crud.py:115-121 | exactly one row is added, under a fresh id, carrying the payload's fields |
| Crud.GetMedicine | app/crud.py:124-125 | a row of the table; with keys equal to ids, found exactly when some row has that `id`, and then that row |
| Crud.NameIsOrder | app/crud.py:133 | ordering by name is a total preorder |
| Crud.NameHits | app/crud.py:129-132 | a medicine is kept exactly when it is stored and its name contains `q` (every medicine for `q` None or ""); in a table keyed by id no row is kept twice |
| Crud.MedicineResults | app/crud.py:129-133 | a permutation of the filter's rows (same multiset), ordered by name; in a table keyed by id each matching row occurs exactly once |
| Crud.SearchMedicines | app/crud.py:128-135 | `OFFSET skip LIMIT limit` of the results: position `i` holds result `skip + i`; `limit` rows, fewer on the last page, none past it; each name contains `q`, in name order, none twice in a table keyed by id |
| Crud.SearchMedicinesComplete | app/crud.py:129-133 | for any page size, every medicine whose name contains `q` is on some page |
| Crud.Restock | app/crud.py:143 | the new quantity is never negative, is exactly `quantity + delta` when that sum is not negative, and 0 otherwise |
| Crud.AdjustMedicineStock | app/crud.py:138-147 | an unknown id returns None and changes nothing; otherwise only that row's quantity changes, to the clamped sum |
| Crud.RestockedSpec | app/crud.py:143 | an adjustment changes the quantity of the target row alone: same keys, same other columns, same other rows, quantity not negative |
| Crud.GetUserByUsername | app/crud.py:170-171 | a found user is a stored row with that username; None means no row has it |
| Crud.GetUserByUsernameUnique | app/crud.py:170-171 | with unique usernames, looking up a row's username finds that row |
| Crud.CreateUser | app/crud.py:153-167 | a taken username returns None and adds nothing; otherwise one row holding the password's digest, never the password; usernames stay unique |
| Crud.AuthenticateUser | app/crud.py:174-183 | a result is the stored row for the username and its digest verifies the password; None for an unknown username; with unique usernames, a result exactly when the stored digest verifies |
| Crud.AuthenticateNewUser | app/crud.py:153-183 | a freshly created user authenticates with exactly the password it registered, and gets its own row back |
| Http.PageOfRow | app/routers/appointments.py:53-56 | with `skip = (page-1)*10` and limit 10, row `i` of a listing appears on page `i/10 + 1` at position `i % 10` |
| Http.PagesDisjoint | app/routers/patients.py:42-45 | two different pages cover disjoint ranges of rows |
| Http.SkipFor | app/routers/appointments.py:54 | the offset of page `p` is a multiple of 10, the `(p - 1)`-th |
| Auth.TokenLifetime | app/auth.py:31-36 | a token decodes to its claims until `now + 60 * (expires_delta or 1440)` seconds and not after; None and 0 both mean one day |
| Auth.ExpiryOf | app/auth.py:34 | the expiry is one day after `now` for no delta or a zero delta, and `expires_delta` minutes after it otherwise |
| Auth.SessionFields | app/auth.py:38 | the session holds exactly `username` and `role`, the token's `sub` and `role` claims, "" for a missing one |
| Auth.CreateAccessToken | app/auth.py:31-39 | the token encodes the caller's claims plus `exp`; the session `{username: sub or "", role: role or ""}` is written under `session:<token>` when the cache is up, and a cache failure does not change the token |
| Auth.CurrentUser | app/auth.py:56-68 | the three failures are exactly: the token does not decode, `sub` is missing, no row has that username; success is the stored row named by `sub` |
| Auth.GetCurrentUser | app/auth.py:50-68 | every failure is the same 401 "Could not validate credentials" |
| Auth.RequireRoles | app/auth.py:71-76 | a 401 comes before any role check; then the stored user passes iff its role is literally in `roles`, otherwise 403 "Operation not permitted" |
| Auth.IssuedTokenAuthenticates | app/auth.py:57-68 | an unexpired token naming a stored username resolves to that row, whatever role it claims |
| Auth.IssuedTokenAuthorizes | app/auth.py:72-75 | such a token passes a gate iff the stored role is in the gate's roles, and is refused with 403 otherwise |
| Auth.ExpiredTokenRejected | app/auth.py:57-64 | an expired token is a 401 at every gate |
| Auth.RoleClaimIgnored | app/auth.py:58-73 | two tokens that differ only in their `role` claim get the same verdict from every gate |
| Services.PatientService.constructor | app/services/base_service.py:9-10 | the service keeps the session it is given |
| Services.PatientService.Create | app/services/patient_service.py:9-15 | exactly one patient added under a fresh id with the payload's fields |
| Services.AppointmentService.constructor | app/services/base_service.py:9-10 | the service keeps the session it is given |
| Services.AppointmentService.Create | app/services/appointment_service.py:10-20 | `ValueError("Patient not found")` and no row for an unknown patient; otherwise one row with the payload's patient, time and reason, status "scheduled" |
| Services.AppointmentService.Reschedule | app/services/appointment_service.py:31-39 | None and no change for an unknown id; otherwise only `scheduled_at` changes |
| Services.AppointmentService.Cancel | app/services/appointment_service.py:41-49 | None and no change for an unknown id; otherwise only `status` changes, to "canceled" |
| Services.MedicineService.constructor | app/services/base_service.py:9-10 | the service keeps the session it is given |
| Services.MedicineService.Create | app/services/medicine_service.py:9-15 | exactly one medicine added under a fresh id with the payload's fields |
| Services.MedicineService.Adjust | app/services/medicine_service.py:27-35 | None and no change for an unknown id; otherwise only the quantity changes, to `max(0, q + delta)` |
| Services.UserService.constructor | app/services/base_service.py:9-10 | the service keeps the session it is given |
| Services.UserService.Create | app/services/user_service.py:10-17 | no duplicate check: a taken username is refused by the unique constraint and nothing is added; otherwise one row with the password's digest |
| AppointmentRoutes.Create | app/routers/appointments.py:19-30 | 401/403 from the gate for roles outside doctor, nurse, admin and staff, with no change; 404 "Patient not found" with no change; otherwise 201 with the new row |
| AppointmentRoutes.Reschedule | app/routers/appointments.py:33-39 | only doctor and admin pass; then the row's time changes and 200 returns it, or 404 "Appointment not found" with no change |
| AppointmentRoutes.Cancel | app/routers/appointments.py:42-48 | the four clinic roles pass; then the status becomes "canceled" and 200 returns the row, or 404 with no change |
| AppointmentRoutes.List | app/routers/appointments.py:51-56 | gate first, then 422 for a page below 1; a permitted request for a valid page is 200 with the listing at `skip = (page-1)*10`, at most 10 rows |
| AppointmentRoutes.ListShowsEveryRow | app/routers/appointments.py:53-56 | for a permitted caller, result `i` is at position `i % 10` of page `i / 10 + 1` |
| MedicineRoutes.SearchKeyInjective | app/routers/medicines.py:36 | two searches share a cache key iff their `q or ''` and their page are equal |
| MedicineRoutes.SearchKey | app/routers/medicines.py:36 | every search key starts with `medicines:search:` (distinct searches get distinct keys by `SearchKeyInjective`) |
| MedicineRoutes.SearchKeyDeterminesResult | app/routers/medicines.py:36-41 | searches that share a cache key compute the same page from the same table |
| MedicineRoutes.AddLeavesSearchPages | app/routers/medicines.py:19 | the marker write of `add_medicine` changes no search page in the cache |
| MedicineRoutes.CachedSearchReplays | app/routers/medicines.py:37-39 | a stored search page is what the same search answers for the next 300 seconds, without reading the table |
| MedicineRoutes.Add | app/routers/medicines.py:15-20 | only admin and staff pass; then 201 with the new row, and the cache gains only `medicines:invalidate` = "1" for one second |
| MedicineRoutes.Get | app/routers/medicines.py:23-29 | the four clinic roles pass; 200 with the row, or 404 "Medicine not found" |
| MedicineRoutes.CachedSearch | app/routers/medicines.py:36-49 | a live non-empty value under the search key is answered as stored with no write; otherwise the computed page, stored under the search key for 300 seconds |
| MedicineRoutes.Search | app/routers/medicines.py:32-49 | gate, then 422 for a page below 1; a live non-empty cached value is answered as stored with no write; otherwise 200 with the computed page, stored under the search key for 300 seconds |
| MedicineRoutes.Adjust | app/routers/medicines.py:52-58 | only admin and staff pass; then the clamped quantity and 200 with the row, or 404 with no change |
| PatientRoutes.PatientKeyInjective | app/routers/patients.py:26 | each patient id has a cache key of its own |
| PatientRoutes.PatientKey | app/routers/patients.py:26 | every record key starts with `patient:` (distinct ids get distinct keys by `PatientKeyInjective`) |
| PatientRoutes.MarkerIsNoPatientKey | app/routers/patients.py:20 | the `patients:invalidate` marker is no patient's key |
| PatientRoutes.Create | app/routers/patients.py:15-21 | doctor, nurse and admin pass (staff gets 403); then 201 with the new row and only the marker written to the cache |
| PatientRoutes.CachedRead | app/routers/patients.py:26-37 | a live non-empty value under `patient:<id>` is answered as stored; otherwise 404 with nothing cached, or the row, cached for 300 seconds |
| PatientRoutes.Get | app/routers/patients.py:24-37 | gate first; a live non-empty cached value is answered as stored; otherwise 404 with nothing cached, or 200 with the row, which is cached under `patient:<id>` for 300 seconds |
| PatientRoutes.List | app/routers/patients.py:40-46 | gate first, then 422 for a page below 1; a permitted request for a valid page is 200 with the listing at `skip = (page-1)*10`, at most 10 patients |
| PatientRoutes.ListShowsEveryRow | app/routers/patients.py:42-45 | for a permitted caller, result `i` is at position `i % 10` of page `i / 10 + 1` |
| PatientCache.CachedRecordIsCurrent | app/routers/patients.py:27-30 | when the cache is coherent, a cache hit answers exactly the current row |
| PatientCache.EmptyCacheIsCoherent | app/cache.py:14-20 | a Redis database that starts empty holds no stale patient record |
| PatientCache.LeftoverRecordIsStale | app/routers/patients.py:27-30 | a record left under `patient:<id>` by an earlier database is served as it is, although the current row differs |
| PatientCache.WriteElsewhere | app/cache.py:47 | a write under a key that is no patient's key keeps the cache coherent |
| PatientCache.ReadKeepsCoherent | app/routers/patients.py:35-36 | caching a patient read keeps the cache coherent |
| PatientCache.RegisterKeepsCoherent | app/routers/patients.py:18-20 | registering a patient under a new id, then writing the marker, keeps the cache coherent |
| PatientCache.MedicineKeysAreNoPatientKeys | app/routers/medicines.py:36 | neither a search key nor the medicine marker is a patient key |
| PatientCache.SearchKeepsCoherent | app/routers/medicines.py:43 | caching a search page keeps the cache coherent |
| PatientCache.MedicineMarkerKeepsCoherent | app/routers/medicines.py:19 | the medicine marker write keeps the cache coherent |
| PatientCache.SessionKeepsCoherent | app/auth.py:38 | recording a login session keeps the cache coherent |
| UserRoutes.Create | app/routers/users.py:15-21 | 400 "Username exists" with nothing added; otherwise 201 with exactly the new row's id, username and role |
| UserRoutes.Login | app/routers/users.py:24-32 | the same 401 "Incorrect credentials" for an unknown user and a wrong password; otherwise 200 with a token carrying `sub` = username and `role` = stored role, type "bearer", and its session written |
| UserRoutes.LoginTokenGrantsStoredRole | app/routers/users.py:27-30 | a stored user whose digest verifies the password logs in as that row; for one day its token passes a gate iff the stored role is in it, and afterwards every gate answers 401 |
| UserRoutes.RegisterThenLogin | app/routers/users.py:15-32 | a newly registered user logs in with the registered password, and the token passes exactly the gates listing the registered role |
| ReportRoutes.Summary | app/routers/reports.py:16-18 | `total_patients` is the number of patients, `upcoming_appointments` the number scheduled at or after `now` with status "scheduled", `low_stock_medicines` the number at or below their reorder threshold; neither filtered count exceeds its table |
| ReportRoutes.OverviewReport | app/routers/reports.py:14-20 | only admin and doctor pass; then 200 with the three counts |
| ReportRoutes.CancelUpdatesUpcoming | app/routers/reports.py:17 | canceling an appointment lowers the upcoming count by one if it was counted, and otherwise leaves it as it was |
| ReportRoutes.BookingUpdatesUpcoming | app/routers/reports.py:17 | a new appointment raises the upcoming count by one exactly when it is not in the past |
| ReportRoutes.UpcomingShrinks | app/routers/reports.py:17 | as time passes the upcoming count can only fall |
| ReportRoutes.RestockShrinksLowStock | app/routers/reports.py:18 | adjusting stock by a non-negative delta never raises the low-stock count |

## Left out

- `get`, `list` and `search` of the service classes run the same queries as `get_patient`, `list_patients`, `list_appointments`, `get_medicine`, `search_medicines` and `get_user_by_username` of app/crud.py. They are modelled once, as the `Crud` functions the routers call.
- `UserService.authenticate` is the same decision as `authenticate_user` and is modelled by `Crud.AuthenticateUser`.
- SQL `LIKE '%q%'` is modelled as case-sensitive substring search. SQLite matches ASCII letters case-insensitively and treats `%` and `_` in `q` as wildcards.
- `ORDER BY` on a column with ties is modelled with ties in key order, which SQL does not promise.
- Names are compared by code point, as SQLite's default collation does.
- JWT signing is not modelled. Any well-formed token text decodes, so tampering with a token is not detected in the model.
- bcrypt's one-way function is not modelled, and neither is its cost factor. Its salt is a parameter instead of a random draw.
- Passwords.HashVerifiesExactly: bcrypt reads only the first 72 bytes of a password, or refuses a longer one with an error, depending on the backend. The stand-in reads the whole password, so passwords that agree on their first 72 bytes verify each other in the source but not in the model.
- Crud.AuthenticateNewUser: for the same reason, a login with a different password that shares the registered one's first 72 bytes succeeds in the source and fails in the model.
- Passwords.PasswordHash: passlib refuses a password containing a NUL character with an error, which answers 500 at registration and login. The model hashes and verifies such a password like any other.
- 64-bit integers: SQLite stores `INTEGER` columns in 64 bits, and binding a larger Python int fails with a 500. The model's ids, quantities, `delta`, `patient_id` and page offsets are unbounded integers. So, for example, `MedicineRoutes.Adjust` answers 200 where an adjustment past 2^63 - 1 fails in the source.
- Concurrency: each request is modelled as one atomic step, and requests run one after another. FastAPI runs these plain `def` handlers at the same time in a thread pool. Two things the model therefore does not show: two registrations of one username can both pass the check at app/routers/users.py:18-19, and the second commit then fails on the unique constraint with a 500 rather than the 400; two concurrent stock adjustments (app/crud.py:143, app/services/medicine_service.py:31) can each read the old quantity, and one update is lost.
- SQLAlchemy sessions, commits and the SQLite file are not modelled. Ids come from a per-table counter (no rows are ever deleted).
- Foreign-key enforcement is modelled only through the explicit patient check the code makes.
- `datetime.utcnow()` is an integer `now` parameter, in seconds. Datetimes are compared as integers.
- PatientCache: the coherence of cached patient records is proved from a starting keyspace that is coherent with the table, such as an empty one. A Redis database shared with another SQLite file, or kept across a new one, is outside that guarantee.
- Redis `HSET` followed by `EXPIRE` is modelled as one step. A failure between the two calls, which leaves a session without a TTL, is not modelled.
- An explicit `None` value in the claims passed to `create_access_token` is not modelled. A missing claim becomes "" as in the source.
- JSON encoding is not modelled. `json.dumps` of a record is the record itself, and `json.loads` gives it back.
- A plain string cached under a search or patient key is answered with a 500 in the model, whatever its text. The application never writes one there.
- FastAPI plumbing is not modelled: the `WWW-Authenticate` header, the 401 `OAuth2PasswordBearer` gives when the header is missing, and the exact text of the 422 validation error.
- A `new_time` that is not a valid datetime (a 422) is not modelled either.
- `send_reminder_stub` (a print run as a background task), the low-stock loop of `search_medicines` (its body is `pass`) and all logging are not modelled. None of them affects a reply or the state.
- Negative `skip` or `limit` cannot reach the query functions: the routers derive them from `page >= 1`. The model types them as natural numbers.
- App wiring (app/main.py, apart from `create_all`), the demo application at the repository root and the test fixtures are not part of this model.
