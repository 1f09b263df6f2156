# NAMASTE ↔ ICD-11 coding service, modelled in Dafny

This project models the request handlers of a small medical-coding API. The
API maps traditional-medicine diagnosis codes (NAMASTE: Ayurveda, Siddha,
Unani) to WHO ICD-11 codes. It also records "dual-coded" clinical encounters
that carry one code from each system. The database becomes an in-memory store
(`Service.Store`) with five tables, each a sequence:
- NAMASTE codes;
- ICD-11 codes;
- code mappings;
- users;
- encounters.

The handlers that walk or change the tables (`setup_database`,
`search_codes`, `translate_code`, `upload_encounter`) are methods on the store.
Each method is proved to compute exactly a reference function over a snapshot
of the tables (`Records.Tables`). `get_encounters` only reads, so it is the
reference function `Encounters.ListEncounters` itself. The properties the
service promises are proved as lemmas about those functions.

- `records.dfy`: the rows of the five tables, the request and response shapes,
  and the typed errors (401 "API key required", 401 "Invalid API key",
  400 unknown code, 404 no translation).
- `sorting.dfy`: the stable sort, highest key first, that Python's
  `list.sort(key=…, reverse=True)` performs. `SortDesc` is the reference
  insertion sort. `SortInPlace` sorts an array in place and is proved equal
  to it.
- `lookup.dfy`: single-row queries (`.first()`) and ASCII lower-casing.
- `search.dfy`: fuzzy search with relevance ranking.
- `translation.dfy`: translation through the mapping table, in either direction.
- `encounters.dfy`: API-key authentication, encounter upload and listing.
- `seeding.dfy`: the bulk load that skips when data is already present.
- `service.dfy`: the store and its handler methods.
- `samples.dfy`: the sample rows of `sampledata.py` and a concrete check of seeding.

The fuzzy scorer `fuzz.partial_ratio` is a parameter (`Search.Ratio`) of the
search functions. Only the lemma that bounds scores assumes that it returns
0..100. Timestamps are a parameter of the upload.

Three choices follow main.py as written:
- No active-user check is made when a key is resolved. The `is_active`
  column is never read (main.py:267, 327).
- `limit` is any integer (main.py:138). A negative limit follows Python
  slicing and drops rows from the end (main.py:187).
- The similarity score is the library's `partial_ratio` (main.py:155-156,
  172-173).

## Model

| member | source | states |
|---|---|---|
| `Sorting.SortDescSorted` | main.py:186 | the sorted list never increases in score from left to right |
| `Sorting.SortDescPermutes` | main.py:186 | sorting neither adds nor drops rows: same multiset, same length |
| `Sorting.SortDescStable` | main.py:186 | for every score value, the rows with that score keep their original relative order |
| `Sorting.SortInPlace` | main.py:186 | sorting the result list in place leaves exactly the stable descending sort of its old contents |
| `Lookup.FindCode` | main.py:272-277 | the query by code returns a catalog row carrying that code, and returns nothing exactly when no row carries it |
| `Lookup.FindUser` | main.py:267 | the query by API key returns a user holding that key, and returns nothing exactly when no user holds it |
| `Lookup.Lower` | main.py:155-156 | lower-casing turns each ASCII capital into the same small letter and keeps every other character |
| `Lookup.LowerIdempotent` | main.py:155-156 | lower-casing is idempotent and leaves no upper-case ASCII letter |
| `Search.SearchIgnoresQueryCase` | main.py:155-173 | the query is lower-cased before scoring, so a query and its lower-case form get the same response |
| `Search.Relevance` | main.py:155-157 | an entry's relevance is the larger of the two lower-cased scores: query against display, query against code |
| `Search.MatchesComplete` | main.py:153-166 | every catalog entry scoring above 50 yields a result row carrying its score |
| `Search.MatchesSound` | main.py:153-166 | every row a catalog scan yields comes from an entry of that catalog scoring above 50 |
| `Search.CandidatesExactly` | main.py:151-183 | a row is in the unsorted list exactly when it is the row of an entry of a catalog that `system` selects and that entry scores above 50; "namaste"/"both" select NAMASTE, "icd11"/"both" select ICD-11, any other value selects neither |
| `Search.SearchSound` | main.py:151-187 | every returned row is such a candidate, and with a 0..100 scorer its score lies in 51..100 |
| `Search.SearchSize` | main.py:187 | the response holds min(limit, n) rows (a negative limit drops rows from the end) and never more than a non-negative limit |
| `Search.SearchOrdered` | main.py:186-187 | returned rows come highest score first |
| `Search.SearchTiesInCatalogOrder` | main.py:150-187 | for each score, the returned rows with that score are the first ones with that score in catalog order, NAMASTE rows before ICD-11 rows |
| `Search.SearchKeepsBest` | main.py:159-187 | a relevant entry of a selected catalog is returned when the limit does not bind; if it is not returned, every returned row scores at least as high |
| `Translation.ResolvePointwise` | main.py:204-240 | one result per mapping row that matches the code and resolves in the target catalog, in table order and without deduplication; each result has the request code as source, the resolved code and display as target, and the row's mapping type |
| `Translation.ResolveComplete` | main.py:210-221 | every matching row whose target resolves produces its result |
| `Translation.TranslateSucceedsIff` | main.py:204-246 | a supported direction succeeds exactly when some mapping row matches and resolves; any other pair of systems fails with 404; every failure is the 404 for the request |
| `Translation.TranslateRoundTrip` | main.py:204-240 | a mapping row whose two codes both resolve is found both when translating forwards from its NAMASTE code and when translating backwards from its ICD-11 code |
| `Encounters.Authenticate` | main.py:37-40 | a missing or empty key gives "API key required"; a non-empty key no user holds gives "Invalid API key"; both are 401; otherwise the caller is authenticated exactly when some user holds the key, and the user returned holds it |
| `Encounters.UploadErrorOrder` | main.py:266-282 | failures come in order: missing key, unknown key (before any code check), unknown NAMASTE code (before the ICD-11 code), unknown ICD-11 code; a failed upload changes no table |
| `Encounters.UploadAppendsOne` | main.py:284-311 | an upload succeeds exactly when the key resolves and both codes exist; it then appends one "upload" row carrying the user's id, the patient and both codes, and changes nothing else; the reply echoes the patient, carries the two catalog rows with those codes (and so their display texts) and names the uploader |
| `Encounters.ListEncountersExactly` | main.py:327-349 | the listing holds exactly the caller's encounters, each as often as stored, newest first, with the caller's name and a count equal to its length; an unusable key is refused with the authentication error ("API key required" or "Invalid API key") |
| `Encounters.UploadThenList` | main.py:284-294 | after a successful upload, the uploader's listing holds exactly one more encounter: the new one |
| `Encounters.UploadLeavesOthers` | main.py:331-333 | an upload by one user leaves every other user's listing exactly as it was |
| `Seeding.SeedLoads` | main.py:69-105 | seeding a store without NAMASTE rows appends each sample list to its table, leaves encounters alone and reports the whole-table counts |
| `Seeding.SeedSkips` | main.py:65-67 | with a NAMASTE row present, seeding changes nothing and reports "skipped" |
| `Seeding.SeedIdempotent` | main.py:65-89 | seeding twice equals seeding once, and the second call is skipped, whenever the NAMASTE sample list is non-empty |
| `Seeding.SeedNotIdempotentWithoutNamasteRows` | main.py:66 | the guard looks only at the NAMASTE table: with only mapping rows to load, a second call appends them again, since code_mappings has no unique column |
| `Samples.SampleSeeding` | sampledata.py:2-59 | seeding the sample data into an empty database reports 16, 10, 9 and 2 rows, and a second call is skipped |
| `Service.Store.constructor` | database.py:67-68 | a freshly created database has five empty tables |
| `Service.Store.SetupDatabase` | main.py:62-105 | the handler's loops leave exactly the seeded tables and return exactly the seeding report |
| `Service.ScanCatalog` | main.py:153-166 | one catalog loop appends exactly the rows of the entries scoring above 50, in catalog order |
| `Service.Store.SearchCodes` | main.py:134-187 | the handler returns the stable descending sort of the candidates, cut at `limit` |
| `Service.Store.TranslateCode` | main.py:193-248 | the handler's loop returns the resolved results, or the 404 when there are none |
| `Service.Store.UploadEncounter` | main.py:256-311 | the handler returns the upload outcome, and the store afterwards is the tables after the upload |

## Left out

- `fuzz.partial_ratio` (main.py:155-156, 172-173) is a parameter. The library's matching algorithm is foreign code and is not modelled.
- `str.lower()` is modelled for ASCII letters only. Other characters are kept as they are, without Unicode case mapping.
- The 500 responses for exceptions (main.py:107-109, 189-190, 252-253, 315-317, 353-354) are not modelled, nor are commit and rollback. Besides storage failures they arise from a seed whose commit breaks a unique column, and from NULL values in nullable columns.
- The nullable columns `code`, `category` and `mapping_type` (database.py:19, 22, 32, 41) are modelled as always-present strings. A NULL there would fail `.lower()` or the response model and give a 500.
- The uniqueness constraints of `code`, `user_id` and `api_key` (database.py:19, 29, 48, 50) are not enforced. Lookups return the first matching row. A seed that breaks a constraint would fail and roll back; `Seeding.Seeded` appends instead.
- Queries without ORDER BY (main.py:152, 170, 206-208, 225-227) are taken to return rows in insertion order. SQL does not promise that order; `Search.SearchTiesInCatalogOrder` and `Translation.ResolvePointwise` depend on it.
- The query defaults `system = "both"` and `limit = 10` (main.py:137-138) are not modelled: every call passes both explicitly.
- Auto-increment ids and `created_at` columns are not modelled. So the reply's `encounter_id` and the listing's `id` fields are absent.
- Clock values are not modelled. The upload takes its timestamp as a parameter.
- `Encounters.ListEncounters` returns encounters with equal timestamps in insertion order. SQL `ORDER BY timestamp DESC` leaves that order unspecified, so `Encounters.ListEncountersExactly` promises only newest-first and the exact multiset.
- `get_encounters` only reads, so it is the pure function `Encounters.ListEncounters` over the tables, not a store method.
- Python's Timsort is modelled by an insertion sort. Both are stable, and only the result is specified. The result list is copied into an array and sorted there in place.
- The root, health and database-status endpoints, the startup hook, the web framework, the database session and `uvicorn` (main.py:10, 43-59, 111-131, 356-358) are HTTP and I/O plumbing.
- The sample data is used only for the seeding check. Concrete translations of the sample codes (N002 to XM002 and CA80) are covered by the general lemmas, not proved on the sample rows.
