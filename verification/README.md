# Deployment tracker, modelled in Dafny

A model of the deployment tracker's server and its browser helpers. The server
is an Express API over SQLite. It records deployments of applications to
regions, lists them newest first, and manages the applications and regions
themselves. An API-key gate guards the API. It lets through without a key
the admin API (every path under `/api/admin`), a few fixed pages, and any path
ending in `.html`, `.css`, `.js` or `.ico`. The admin API creates, lists,
toggles and deletes the keys.

The modules follow the program's structure:

- `Store` stands in for the SQLite database (`src/db.js`). It is a class
  `Database` with one `seq` field per table (Applications, Regions,
  Deployments, ApiKeys) and one AUTOINCREMENT counter per table. Its
  invariant `Valid` holds:
  - the UNIQUE columns (Application and Region names, API key secrets) and
    unique IDs;
  - IDs below their counter;
  - NULL descriptions while the Description column is absent;
  - referential integrity of Deployments, whenever the connection enforces
    foreign keys.

  The key operations of `db.js` (validate, list, create, toggle, delete,
  bootstrap the default key) are methods that change the ApiKeys table in
  place.
- `Auth` covers the exempt-path classifier and the gate `apiKeyAuth`
  (`src/middleware/authMiddleware.js`).
- `AdminRoutes` covers the key administration handlers and the masking of
  secrets (`src/routes/adminRoutes.js`).
- `Routes` covers the deployment, application and region handlers
  (`src/routes.js`). The listing query is a function over the tables: filter,
  sort by Date then Time descending, inner join.
- `ClientUtils` covers the browser helpers (`public/js/utils.js`): sort and
  filter by property, and the API-key headers.
- `Seed` covers the seeding script (`src/seed.js`).
- `Js`, `Sequences` and `Wrappers` are support modules:
  - `Js` gives the JavaScript meaning of truthiness, `startsWith`, `endsWith`,
    `substring` and string `<`.
  - `Sequences` holds the generic filter and the stable insertion sort, with
    their lemmas.
  - `Wrappers` holds `Option` and `Result`.

Conventions:
- Store errors are not decided by the model. A `fault` argument says whether
  the store reports an error at that step. For `POST /applications`, a
  `ApplicationFault` value names the step that fails.
- The random 64-hex-character secret that `crypto.randomBytes(32)` yields is
  an argument constrained by `IsHexSecret`.
- The value of `CURRENT_TIMESTAMP` is an argument `now`.
- Node.js lower-cases the names of incoming headers. In the model a later
  header replaces an earlier one of the same name. `ClientUtils.Received` models this
  assumption about the server, and `ClientUtils.ReceivedNames` and
  `ClientUtils.ReceivedValue` state it: the server sees exactly the names sent,
  each holding the value of the last header sent under it.
- Every `INSERT` into an AUTOINCREMENT table draws the next ID before the
  UNIQUE check. An `INSERT OR IGNORE` whose row is ignored keeps the
  advanced sequence, so seeding an already seeded database uses up one
  Application ID per sample application and one Region ID per sample region.
  A plain `INSERT` that fails is rolled back with its ID.

## Model

| member | source | states |
|---|---|---|
| Auth.SomeEntryMeaning | src/middleware/authMiddleware.js:41-48 | `some` over the allow-list holds exactly when one entry matches the path |
| Auth.ExemptPathMeaning | src/middleware/authMiddleware.js:31-51 | A path is exempt iff it equals an entry, starts with an entry followed by "/", or ends in .html/.css/.js/.ico |
| Auth.ListedPathsExempt | src/middleware/authMiddleware.js:32-42 | Each of the five allow-list entries is itself exempt |
| Auth.NoStaticSuffix | src/middleware/authMiddleware.js:44-47 | A path whose final characters rule out every static suffix has none of them |
| Auth.ApiPathProtected | src/middleware/authMiddleware.js:31-50 | A path under "/api/" that is not the admin API and has no static suffix is not exempt |
| Auth.DoubleSlashExempt | src/middleware/authMiddleware.js:42-43 | By prefix, the "/" entry exempts the paths that start with "//" |
| Auth.AdminPrefixNeedsSeparator | src/middleware/authMiddleware.js:42-43 | "/api/admin/keys" and "/api/admin/keys/7/toggle" are exempt; "/api/adminX" is not |
| Auth.StaticSuffixExemptsAnyPath | src/middleware/authMiddleware.js:44-47 | Any path ending in a static suffix is exempt, whatever its prefix |
| Auth.ScriptSuffixOnApiRoute | src/middleware/authMiddleware.js:44-47 | "/api/deployments.js" is exempt |
| Auth.ApiRoutesProtected | src/middleware/authMiddleware.js:31-50 | "/api/deployments", "/api/regions" and "/api/applications" are not exempt |
| Auth.HeaderOverridesQuery | src/middleware/authMiddleware.js:12 | A non-empty x-api-key header is the credential, whatever the apikey query parameter holds |
| Auth.EmptyHeaderIsAbsent | src/middleware/authMiddleware.js:12 | An empty x-api-key header is falsy and counts as no header, so the apikey query parameter is used |
| Auth.ApiKeyAuth | src/middleware/authMiddleware.js:4-28 | Exempt paths pass without touching the key table; other paths pass iff validation succeeds, and then only the matched row's LastUsed changes; otherwise they get the one fixed 401 and the table is unchanged |
| Store.ActiveKeyIndex | src/db.js:119 | Finds an active row holding the secret, or reports that none exists |
| Store.Accepts | src/db.js:113-135 | Validation succeeds iff the credential is non-empty and an active row holds exactly that secret |
| Store.ApplicationById | src/routes.js:37 | The join lookup finds a row with that ID, or reports that none exists |
| Store.RegionById | src/routes.js:38 | The join lookup finds a region with that ID, or reports that none exists |
| Store.ApplicationByName | src/routes.js:121-129 | The existence check finds a row with that name iff the name is taken |
| Store.KeyById | src/routes/adminRoutes.js:26 | Finds the key row with that ID iff one exists |
| Store.Database.constructor | src/db.js:22-67 | A new database has four empty tables, satisfies every table constraint, and lacks the Description column |
| Store.Database.CreateDefaultApiKey | src/db.js:90-110 | Inserts one active "Default Key" row only when the table is empty and no error occurs, under the next key ID, which then advances by one; otherwise nothing changes |
| Store.Database.ValidateApiKey | src/db.js:113-135 | Returns Accepts of the table, failing closed on a store error; on success only the matched row's LastUsed changes |
| Store.Database.GetAllApiKeys | src/db.js:138-146 | Returns every row, or the store error |
| Store.Database.CreateApiKey | src/db.js:149-160 | Appends one active row with null LastUsed and returns {id, keyName, apiKey}; a store error or duplicate secret inserts nothing |
| Store.Database.ToggleApiKeyStatus | src/db.js:163-172 | Sets Active to the truthiness of `active` on exactly the rows with that ID; reports 1 if the ID exists, else 0 |
| Store.Database.DeleteApiKey | src/db.js:175-184 | Removes the row with that ID and nothing else; reports 1 if it existed, else 0 |
| Store.Database.InsertOrIgnoreApplication | src/seed.js:23 | Appends a row for a name not yet taken and ignores a taken one, reporting the change count; the ID sequence advances either way |
| Store.Database.InsertOrIgnoreRegion | src/seed.js:36 | Appends a region for a name not yet taken and ignores a taken one, reporting the change count; the ID sequence advances either way |
| Store.Database.AddDescriptionColumn | src/routes.js:141-150 | Adds the column unless it exists or the store fails; reports success |
| Store.Database.InsertApplication | src/routes.js:154-157 | Fails on a store error, a missing Description column or a taken name; otherwise appends the row under the next ID |
| Store.Database.InsertDeployment | src/routes.js:13-20 | Appends the row under the next ID, failing on a store error, or on a dangling reference when foreign keys are enforced |
| Store.ApplicationByOwnId | src/routes.js:163 | With unique IDs, reading back by the new row's ID returns that row |
| Store.TouchKeepsAcceptance | src/db.js:128 | Updating LastUsed does not change which credentials validate |
| Store.DeactivatedKeyRejected | src/db.js:163-172 | After deactivating a key, its secret no longer validates |
| Store.RemoveKeyExact | src/db.js:176 | After the delete, the rows left are exactly the rows with other IDs, one fewer iff the ID existed |
| Js.Substring | src/routes/adminRoutes.js:15 | `substring` returns the characters between its two indices, swapped if reversed, never longer than the string |
| Js.SubstringFrom | src/routes/adminRoutes.js:15 | `substring(start)` clamps a negative start to 0 and a start past the end to the empty string |
| AdminRoutes.MaskSecretShape | src/routes/adminRoutes.js:15 | A non-empty secret shows its first min(8, n) and last min(8, n) characters around "..." (substring clamps) |
| AdminRoutes.MaskHidesMiddle | src/routes/adminRoutes.js:15 | A 64-character secret is masked to 19 characters, showing 0..7 and 56..63 only |
| AdminRoutes.MaskRevealsShortSecret | src/routes/adminRoutes.js:15 | A secret of at most 8 characters appears whole, twice |
| AdminRoutes.MaskAll | src/routes/adminRoutes.js:13-16 | Masking keeps the number and order of rows and every field but the secret, which becomes its mask |
| AdminRoutes.ListingHidesSecrets | src/routes/adminRoutes.js:13-16 | A listing of 64-character secrets shows only the outer 8 characters of each |
| AdminRoutes.ListKeys | src/routes/adminRoutes.js:6-20 | 500 on a store error, else 200 with the masked rows |
| AdminRoutes.GetFullKey | src/routes/adminRoutes.js:23-37 | 500 on a store error, 404 for an unknown ID, else 200 with that row's unmasked secret |
| AdminRoutes.PostKey | src/routes/adminRoutes.js:40-57 | 400 and no insert without a key name; 500 and no insert on a store error; otherwise 201 with the created key; the key ID sequence advances by one on a 201 and stays put otherwise |
| AdminRoutes.ToggleKey | src/routes/adminRoutes.js:60-81 | 400 before any store access only when `active` is undefined; 500 on error; 404 for an unknown ID; else 200 "activated"/"deactivated" by truthiness |
| AdminRoutes.DeleteKey | src/routes/adminRoutes.js:84-98 | 500 on error; 404 for an unknown ID; else 200; the table loses exactly the row with that ID |
| Routes.NoOlderTotalPreorder | src/routes.js:39 | Ordering by Date then Time descending is a total preorder |
| Routes.JoinRow | src/routes.js:37-38 | A deployment joins iff its application and region both exist, and then carries their names |
| Routes.Join | src/routes.js:33-40 | The inner join yields exactly one row per deployment whose application and region both exist |
| Routes.JoinMembership | src/routes.js:33-40 | A joined row appears iff some deployment joins to it |
| Routes.JoinKeepsOrder | src/routes.js:39 | Joining keeps the deployments' order |
| Routes.JoinSubsequence | src/routes.js:36-38 | Joining a subsequence of deployments gives a subsequence of the join |
| Routes.ListingNewestFirst | src/routes.js:63 | Every listing is ordered by Date descending, then Time descending |
| Routes.ListingMembership | src/routes.js:55-64 | A listing holds exactly the joined rows of the selected deployments |
| Routes.SelectedListingIsSubsequence | src/routes.js:79-88 | The by-application and by-region listings are subsequences of the full listing |
| Routes.JoinKeepsAll | src/routes.js:37-38 | With referential integrity, the join loses no deployment |
| Routes.FullListingComplete | src/routes.js:33-40 | With referential integrity, the full listing has one row per deployment |
| Routes.LaterDateListedFirst | src/routes.js:39 | 2024-01-02 09:00 is listed before 2024-01-01 10:00 |
| Routes.GetDeployments | src/routes.js:31-97 | 500 on a store error, else 200 with the listing for the selector |
| Routes.GetApplications | src/routes.js:100-109 | 500 on a store error, else 200 with every application |
| Routes.GetRegions | src/routes.js:176-185 | 500 on a store error, else 200 with every region |
| Routes.PostDeployment | src/routes.js:5-28 | 400 and no insert when a required field is falsy; 500 and no insert on a store error (a dangling reference counts only when foreign keys are enforced); otherwise 201 with the new ID, exactly one appended row holding the request's fields, and the ID sequence advanced by one |
| Routes.PostApplication | src/routes.js:112-173 | 400 without a name; 409 with the table unchanged for a taken name; the column is added if missing, and afterwards exists iff it did before or the request got past the schema check and the ALTER succeeded (a failed ALTER is ignored and leaves it absent); otherwise one row is appended and returned with 201 |
| ClientUtils.Compare | public/js/utils.js:81-90 | The comparator orders defined values by `<`, reversed unless the direction is 'asc', and returns 0 when a value is undefined |
| ClientUtils.InOrderMeaning | public/js/utils.js:81-90 | For records with the property, the comparator keeps a before b unless b's value must come first |
| ClientUtils.InOrderTotalPreorder | public/js/utils.js:81-90 | For records that carry the property, the comparator is a total preorder |
| ClientUtils.SortArrayByPropertyPermutes | public/js/utils.js:81 | The sorted copy is a permutation of the input |
| ClientUtils.SortArrayByPropertyOrdered | public/js/utils.js:80-91 | The copy is non-decreasing in the property for 'asc' (the default) and non-increasing otherwise |
| ClientUtils.SortKeepsEquivalent | public/js/utils.js:81 | Sorting elements that all compare equal keeps their order |
| ClientUtils.SortArrayByPropertyStable | public/js/utils.js:81 | Records sharing a value of the property keep their input order |
| ClientUtils.FilterArrayByPropertyExact | public/js/utils.js:100-102 | The result holds exactly the records whose property strictly equals the value, in input order |
| ClientUtils.FilterArrayByPropertyIdempotent | public/js/utils.js:101 | Filtering twice equals filtering once |
| ClientUtils.ApiKeyHeadersReceived | public/js/utils.js:28-33 | The server receives exactly two headers from getApiKeyHeaders: content-type application/json and x-api-key holding the key |
| ClientUtils.ApiKeyHeadersCarryKey | public/js/utils.js:28-33 | The headers built for a non-empty key make that key the credential the gate reads |
| Seed.SeedAll | src/seed.js:21-44 | Seeding keeps the existing rows as a prefix, adds at most one row per name, and advances the ID sequence once per name |
| Seed.SeedAllTaken | src/seed.js:22-23 | After seeding, a name is present iff it was before or it is listed |
| Seed.SeedAllPresentNoop | src/seed.js:23 | Seeding names that are all present adds no row |
| Seed.SeedAllIdempotent | src/seed.js:36 | Seeding twice leaves the same rows as seeding once |
| Seed.SeedAllCount | src/seed.js:26 | With distinct names, the rows added are the listed names that were missing |
| Seed.SeedEmptyApplications | src/seed.js:4-9 | An empty Applications table is seeded with app_one, app_two, api_app1, crazy_app_1 under IDs 1 to 4 |
| Seed.SeedEmptyRegions | src/seed.js:12-18 | An empty Regions table is seeded with DEV, TEST, PROD, QA, TRN under IDs 1 to 5 |
| Seed.SeedApplications | src/seed.js:21-31 | The loop leaves the table equal to SeedAll over the sample application names, keeping the store invariant |
| Seed.SeedRegions | src/seed.js:34-44 | The loop leaves the table equal to SeedAll over the sample region names, keeping the store invariant |

The support modules carry the lemmas the rows above rely on:
`Sequences.SortSorted`, `Sequences.SortPermutes` and `Sequences.SortFilterCommute`
for the sorts, and `Js.LessTotal`, `Js.LessTransitive` and `Js.LessAt` for string
order.

## Left out

- Store errors are not decided by the model: a `fault` argument (for `POST /applications` an `ApplicationFault`) selects the step at which the store reports one. The statements and messages SQLite would produce are not modelled.
- Asynchrony: each handler and each callback chain is one sequential step. The race between the name check and the insert in `POST /applications` and the ordering of the seed inserts are not modelled.
- Store.Database.ValidateApiKey: the fire-and-forget `LastUsed` update is modelled as always applied; an error from it is ignored in the source and not modelled.
- `crypto.randomBytes` is an argument `secret` (64 lowercase hex characters). `CURRENT_TIMESTAMP` is an argument `now`.
- Foreign keys: the table definition declares them, but `src/db.js` never enables `PRAGMA foreign_keys`, so SQLite does not enforce them. `Database.foreignKeys` records whether the connection enforces them. The referential-integrity invariant holds only when it does; by default a dangling `Application_ID` is inserted and the deployment then drops out of every listing.
- Route parameters (`req.params.id`) are strings in Express. They are modelled as the integers SQLite compares them to, and conversion of a non-numeric parameter is not modelled.
- Request bodies: fields are modelled as present or absent strings. The deployment IDs are numbers. `active` is any JSON value. JSON values of other types (a number for a name, an array) are not modelled. Neither is a repeated `apikey` query parameter.
- Routes.Listing: Date and Time are modelled as text and ordered by character code. The columns are declared `DATE` and `TIME`, which have NUMERIC affinity in SQLite. A numeric-looking value such as the time "930" is stored as a number, sorts before every text value under ORDER BY, and comes back as a JSON number. That conversion is not modelled.
- Routes.Listing: rows with equal Date and Time come out in table order. SQL leaves their order unspecified.
- Routes.GetApplications: the JSON shape of a row when the Description column is missing (no Description key at all) is not distinguished from a NULL description.
- ClientUtils.SortArrayByProperty: only string-valued properties and missing properties are modelled, and strings are ordered by character code (JavaScript compares UTF-16 code units). Mixed or numeric property values are not modelled. With some records lacking the property, the comparator is not a consistent ordering. The model then fixes one outcome (the stable insertion sort), which JavaScript engines do not promise.
- ClientUtils.Received: Node.js joins the values of most repeated headers with ", " instead of keeping the last one. The model keeps the last one. The headers built here never repeat a name.
- `getStoredApiKey` and `storeApiKey` (browser local storage), `UIUtils.showMessage` (DOM and timers) and `UIUtils.formatDate` (locale formatting) are not part of this model.
- `src/seed.js`: an insert error is only logged in the source; the model's seed inserts always succeed. The log lines and the startup delay (`setTimeout`) are not modelled.
- `src/index.js` (server set-up, CORS, static files, error handler) is not part of this model. The gate is assumed to run after static file serving and the OPTIONS answer, as that file arranges.
- Database creation: the model starts from empty tables. Creating the indexes and resolving the database path from the environment are not modelled.
