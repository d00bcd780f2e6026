# At-Tibb prescription writer — a Dafny model

At-Tibb is a small Flask application in which a doctor registers, logs in and
writes prescriptions: a date, a patient, vitals and a list of medication
lines. The doctor can view, edit and search the prescriptions they wrote. The
home page sends per-medication suggestion lists, ranked by how often the
doctor used each value. This project models the request handlers of `app.py`
and the helpers of `helpers.py` over an in-memory database. It also proves
what those handlers promise.

Layout, one module per file:

- `wrappers.dfy` defines `Option`.
- `records.dfy` defines the table rows, Python truthiness and `zip` over the
  six medication arrays.
- `strings.dfy` defines Python's substring test `sub in s`.
- `web.dfy` defines the responses, the flashed messages and the Flask
  session. The session is a class whose flags the handlers set in place.
- `helpers.dfy` holds `norm`, `login_required` and `check_required`.
- `accounts.dfy` holds the ordered validation checks of registration, login
  and password change.
- `medlines.dfy` specifies the medication rows that the creation loop and
  the edit reconciliation loop write, with their lemmas.
- `medindex.dfy` holds `Counter.most_common()` and the `med_data` suggestion
  index of the home page.
- `search.dfy` holds the search filters and the predicates and parameters
  built from them.
- `autocomplete.dfy` holds the `/query` allow-list.
- `app.dfy` holds the handlers.

The SQLite database is two objects, one map per table:

- `AccountStore` holds users, doctors and clinics, the tables the account
  handlers write.
- `PrescriptionStore` holds prescriptions, patients, vitals and medications,
  the tables the prescription handlers write.

Medication rows are keyed by (prescription id, sequence). A `rowOrder`
sequence records their insertion (rowid) order. A handler that writes builds
its new tables first and assigns them at the end. A transaction that raises
is the parameter `commits == false`, and it leaves every table unchanged.

Things outside the code's control are parameters:

- the password hash and its verification (`hashed`, `verify`);
- the Unicode digit and whitespace classes (`isDigit`, `isSpace`);
- `int()` parsing of a request id (`id: Option<int>`);
- the database's reading of a text id as a number (`idAsInteger`).

## Model

| member | source | states |
|---|---|---|
| Records.Zip | app.py:252 | one tuple per position, as long as the shortest of the six arrays, the i-th tuple made of the i-th elements |
| Records.Truthy | app.py:207-209 | Python truthiness of a form value: present and non-empty |
| Helpers.DropNonDigits | helpers.py:38 | the result holds digits only and is no longer than the input |
| Helpers.Norm | helpers.py:36-40 | falsy input (None or "") comes back unchanged; otherwise the result is present, all digits, no longer than the input |
| Helpers.DropNonDigitsAppend | helpers.py:38 | removing non-digits distributes over concatenation |
| Helpers.DropNonDigitsIsSubsequence | helpers.py:38 | the output is a subsequence of the input (digits keep their order) |
| Helpers.DropNonDigitsCounts | helpers.py:38 | every digit keeps its number of occurrences and every non-digit occurs zero times |
| Helpers.DropNonDigitsFixpoint | helpers.py:38 | a string is unchanged exactly when it consists of digits only |
| Helpers.NormIdempotent | helpers.py:36-40 | norm(norm(x)) == norm(x) |
| Helpers.NormFixpoint | helpers.py:36-40 | norm returns a present string unchanged if and only if it is all digits |
| Helpers.LoginRequired | helpers.py:15-19 | the handler proceeds exactly when the session has a user id; otherwise redirect to /login (a function: the session cannot change) |
| Helpers.CheckRequired | helpers.py:27-33 | proceeds exactly when `checked` was set, leaving `next_url` alone; otherwise stores the request path in `next_url` and redirects to /check |
| Helpers.Guard | app.py:603-604 | the stacked decorators proceed exactly when logged in and (if confirmation is required) checked; logged out: redirect to /login with `next_url` untouched; logged in but unconfirmed: redirect to /check with `next_url` set to the request path; proceeding leaves `next_url` alone |
| Accounts.RegisterCheck | app.py:104-127 | rejections in order: existing username, missing username, missing password, mismatched confirmation; each one exactly in its case, and none when all pass |
| Accounts.LoginCheck | app.py:53-62 | a missing username first, then a missing password; no error exactly when both are present |
| Accounts.PasswordCheck | app.py:617-624 | a missing password first, then a mismatched confirmation; no error exactly when the password is present and confirmed |
| MedLines.Created | app.py:252-269 | the rows the creation loop inserts for the first `n` submitted lines: position `i` (from 1) only when its name is truthy, owned by the session user |
| MedLines.CreatedKeys | app.py:252-269 | the keys of those rows in the order of the INSERT statements |
| MedLines.CreatedFacts | app.py:252-269 | the created rows are exactly the named positions of the new prescription, each holding its submitted line and the session user |
| MedLines.CreatedKeysFacts | app.py:252-269 | the INSERT order lists exactly the named positions, with sequences strictly increasing and at most the number of positions |
| MedLines.InsertedKeys | app.py:494-527 | the keys the edit loop INSERTs, in order: named positions without an existing row |
| MedLines.InsertedKeysFacts | app.py:494-527 | the edit's INSERT order lists exactly the named positions the prescription did not already have, in increasing order |
| MedLines.Reconciled | app.py:494-527 | the medication rows after the edit loop: named positions UPDATE an existing row, keeping its owner, or INSERT one for the editing user; blank names change nothing |
| MedLines.ReconciledFacts | app.py:489-527 | after the edit loop: no row is removed, rows of named positions hold the submitted line (new rows the editing user), and every other row is unchanged |
| MedLines.CreatedSequences | app.py:252-253 | the new prescription's sequence set is exactly its named 1-based positions, blank names leaving gaps |
| MedLines.CreatedInsertOrder | app.py:252-269 | the INSERT statements write exactly the created rows |
| MedLines.EditSequences | app.py:489-527 | after an edit the sequence set is the old set plus the named submitted positions |
| MedLines.CreateIsEditOfNothing | app.py:494-527 | against a prescription with no rows, the edit loop writes exactly what creation writes |
| MedLines.CreateInsertsAsEdit | app.py:494-527 | against a prescription with no rows, the edit loop's INSERTs come in the same order as creation's |
| MedLines.EditKeepsOwner | app.py:511-525 | if all the prescription's rows belong to the editing user, they still do after the edit |
| MedIndex.First | app.py:324 | the index returned is the first occurrence of the value |
| MedIndex.Uniques | app.py:324 | the keys of `Counter(values)` in insertion order |
| MedIndex.UniquesFacts | app.py:324 | the Counter keys are exactly the distinct values of the list, in first-occurrence order |
| MedIndex.Insert | app.py:324 | inserting a value into a ranked list adds exactly that value |
| MedIndex.InsertRanked | app.py:324 | inserting a value seen later than every value already ranked keeps the list ranked |
| MedIndex.SortByCount | app.py:324 | the stable sort by count keeps exactly the values it is given |
| MedIndex.SortByCountRanked | app.py:324 | the stable sort of values in first-occurrence order ranks them: higher count first, ties in first-occurrence order |
| MedIndex.RankedNoDuplicates | app.py:324 | a ranked list has no duplicates |
| MedIndex.MostCommon | app.py:326 | `[val for val, _ in Counter(values).most_common()]`: the keys stably sorted by decreasing count |
| MedIndex.MostCommonRanks | app.py:324-326 | `most_common()` keys: exactly the observed values, no duplicates, counts non-increasing, ties in first-occurrence order |
| MedIndex.RankedUnique | app.py:324-326 | two ranked lists of the same values are equal, so the ranking is determined |
| MedIndex.DoseExample | app.py:324-326 | doses 5mg, 5mg, 10mg rank as 5mg, 10mg |
| MedIndex.AppendFields | app.py:316-318 | one row appends its value of each of the five fields to that field's list |
| MedIndex.RankFields | app.py:322-326 | each field list is replaced by its `most_common()` ranking |
| MedIndex.Names | app.py:311-314 | the medication names that become keys of `med_data` |
| MedIndex.Observed | app.py:311-318 | the list one field accumulates for one name: the values of the rows with that name, in row order |
| MedIndex.CollectRows | app.py:311-318 | the grouped lists have exactly the rows' names as keys, and each field list is the values observed for that name in row order |
| MedIndex.RankAll | app.py:321-326 | every grouped list is replaced by its ranking; the names are unchanged |
| MedIndex.BuildMedIndex | app.py:306-326 | `med_data` has exactly the distinct medication names as keys and, per field, the `most_common()` ranking of the observed values |
| Search.TrimStart | app.py:726-734 | `lstrip()`: the result is a suffix of the input that does not start with whitespace, and every character removed is whitespace |
| Search.TrimEnd | app.py:726-734 | `rstrip()`: the result is a prefix of the input that does not end with whitespace, and every character removed is whitespace |
| Search.Strip | app.py:726-734 | `strip()` returns the slice of the input that starts after its leading whitespace, with no whitespace at either end |
| Search.StripRemovesSpaces | app.py:726-734 | everything `strip()` drops, before and after the slice it keeps, is whitespace |
| Search.StripDigits | app.py:730-734 | stripping a normalised (all-digit) age or dose leaves it all digits |
| Search.Raw | app.py:726-734 | `request.form.get(field, "")`: the submitted value of the field behind each key, "" when absent |
| Search.Unstripped | app.py:730-734 | the field `strip()` is applied to: the raw form value, passed through `norm` for age and dose |
| Search.FilterValue | app.py:726-734 | `... .strip() or None`: a filter is set exactly when the stripped field is non-empty, and then holds that stripped field; age and dose filters are digits only |
| Search.Filters | app.py:725-735 | the `filters` dict: each of the nine keys mapped to its `FilterValue` |
| Search.Active | app.py:749-750 | the keys of `filters` with a truthy value, in dict order |
| Search.ActiveMembers | app.py:749-756 | the active keys are exactly the keys whose filter is set |
| Search.FiltersComplete | app.py:725-735 | the filter dict has all nine keys, each with its stripped (and for age and dose normalised) value |
| Search.ClauseFor | app.py:751-755 | `LOWER(key) LIKE LOWER(:key)` for patient name, age, medication name, form and dose; `key = :key` for the others |
| Search.PatternFor | app.py:751-756 | the bound parameter: `%v%` for the substring keys, `v` itself for the others |
| Search.BuildQuery | app.py:745-756 | parameters are the user id plus exactly the set filters, `%v%` for patient name, age, medication name, form and dose and `v` for the others; one predicate per set filter in dict order, LIKE for the substring keys and equality for the rest |
| Strings.HasInfix | app.py:803 | Python's `"name" in type`: the substring occurs at some index |
| Autocomplete.QueryPlan | app.py:786-816 | a type outside the allow-list gets the empty reply; an allowed type with a value selects its own column from the mapped table, filtered on the mapped base column, by substring for the name types and by equality otherwise |
| Autocomplete.AllowList | app.py:786-793 | the allow-list is exactly the six types; age and sex map to patients.patient_name, dose and form to medications.med_name; only the two name types contain "name" |
| App.Redated | app.py:449-451 | the edit rewrites only the date columns of the prescription row, never its owner |
| App.HomeDelivery | app.py:298-357 | what a home page view sends: the full bundle while `sent` is down, the account bundle while `account` is down, otherwise nothing |
| App.NextFlags | app.py:298-357 | the flags after a view: a full send raises `sent`, any later view raises `account` |
| App.ThirdHomeView | app.py:297-357 | a view right after login sends everything; two views always leave the third one sending nothing |
| App.RowsOf | app.py:307 | the user's medication rows in insertion order, no more rows than the table |
| App.RowsOfOwned | app.py:307 | a line is in the result exactly when some medication row of the user holds it |
| App.RowsOfCount | app.py:307-326 | over a duplicate-free rowid order, each line occurs in the result exactly as many times as the user has rows holding it, which are the counts `Counter(values)` ranks by |
| App.InsertNamed | app.py:252-269 | the creation loop adds exactly the created rows, appended to the rowid order in INSERT order |
| App.ReconcileNamed | app.py:489-527 | the edit loop, run against the snapshot of existing sequences, yields exactly the reconciled table and appends exactly the edit's INSERTs to the rowid order |
| App.CreateMedsConsistent | app.py:252-269 | creating under a fresh id keeps every medication row attached to an existing prescription with its owner, and the rowid order a duplicate-free listing of the rows |
| App.CreateConsistent | app.py:231-269 | creating under the next id keeps the prescription tables well formed |
| App.EditOwners | app.py:511-525 | after an edit every medication row still carries its prescription's owner |
| App.EditDistinct | app.py:511-525 | the edit's INSERTs append keys the rowid order did not hold, each once |
| App.EditMembership | app.py:489-527 | after an edit the rowid order lists exactly the rows of the table |
| App.EditMedsConsistent | app.py:489-527 | editing an owned prescription keeps the medications consistent with the prescriptions |
| App.EditConsistent | app.py:473-527 | editing an owned prescription keeps the prescription tables well formed |
| Web.Session.Clear | app.py:43 | `session.clear()`: no user id, no `next_url`, every flag down |
| App.LoginForm | app.py:43-45 | the login page clears the session with `sent` and `checked` down |
| App.Logout | app.py:84-92 | the session is cleared and the user is sent to /login |
| App.Refresh | app.py:361-368 | only `sent` is lowered, so the next home page sends the full bundle |
| App.AccountPage | app.py:561-574 | viewing the account page withdraws the password confirmation |
| App.AccountStore.UsernameTaken | app.py:104-106 | `SELECT id FROM users WHERE username = :name` finds a row: some user has that username (a missing name matches none) |
| App.AccountStore.UsernameNotice | app.py:175-185 | the notice is non-empty exactly when the username is taken |
| App.AccountStore.Register | app.py:99-168 | a failed check renders its message and writes nothing; a failed transaction writes nothing; otherwise a user, doctor and clinic row under a fresh id, and the store stays well formed |
| App.AccountStore.Login | app.py:43-77 | the session is cleared; it gets a user id exactly when both fields are present and some user of that username verifies the password, and that id is that user's |
| App.AccountStore.Confirm | app.py:583-599 | a verified password sets `checked`, pops `next_url` and redirects there (home when none); otherwise the check page with an error, `next_url` kept |
| App.AccountStore.ChangePassword | app.py:608-639 | a failed check renders its message; a committed change replaces only the user's hash and sends to /logout; usernames and user ids never change |
| App.AccountStore.ChangeProfile | app.py:655-689 | a committed change overwrites the user's doctor and clinic rows and lowers `account`, so the next home page resends the account bundle; a failed one changes nothing |
| App.PrescriptionStore.Owns | app.py:438 | `SELECT * FROM prescriptions WHERE id = :id AND user_id = :uid` finds a row (also at app.py lines 394 and 714): the prescription exists and belongs to the user |
| App.PrescriptionStore.CreatePrescription | app.py:196-285 | no patient name: redirect, nothing written; failed transaction: nothing written; otherwise the prescription, patient and vitals rows under a fresh id and exactly the created medication rows, the store staying well formed |
| App.PrescriptionStore.Open | app.py:383-417 | a prescription is shown exactly when the id parses and the session user owns it, with its own patient, vitals and medication rows; otherwise an error redirect with no data |
| App.PrescriptionStore.EditPrescription | app.py:430-532 | only the owner's prescription is written: dates, patient and vitals overwritten, medications reconciled, the INSERTs appended, the store staying well formed; otherwise an error redirect and nothing written |
| App.PrescriptionStore.SearchSubmit | app.py:703-767 | a given id redirects to its view page exactly when the user owns it, otherwise refuses it; without an id, the query of the set filters |
| App.HomeGet | app.py:287-357 | the welcome is flashed on the first view only; the bundle follows the `sent`/`account` stages: doctor, clinic and the user's medication index, then the account rows only, then nothing |

## Left out

- Requests are modelled one at a time. The registration handler checks the username on one connection and inserts the user in a later transaction, so two interleaved registrations could both pass the check; the uniqueness of usernames kept by App.AccountStore rests on requests not interleaving.
- App.RowsOf: the medication query has no `ORDER BY`. The model assumes that SQLite returns the rows in rowid order, the order in which they were inserted. The tie order of `most_common()` depends on this.
- SQL text and the database's own semantics are not modelled: `LIKE`, `LOWER`, `GROUP BY`, `ORDER BY`, `LIMIT` and timestamps. Search stops at the predicates and parameters it builds, and `/query` stops at its plan.
- The `/query` suggestion results and their `ORDER BY COUNT(*) LIMIT 10` ranking are computed by the database and are not modelled.
- `PRAGMA busy_timeout`, foreign keys, lock timeouts and the classification of error messages into different flashes are not modelled. Every failed creation is `SaveFailed`.
- Werkzeug password hashing is a parameter: the hash value and an uninterpreted `verify` predicate.
- The session file backend and the cache headers are not modelled.
- Templates, the flashed text, the browser scripts and the `/history` and `/about` pages are not modelled. The latter two are single queries.
- `/query` with an allowed type but an empty value reads `results` before assignment. Autocomplete.QueryPlan only classifies this as `ServerError`.
- The edit handler stores an empty patient name without re-checking it. EditPrescription does the same and promises nothing more.
- App.PrescriptionStore.EditPrescription: the edit always commits. A failing edit transaction, which the database rolls back before the framework answers with a server error, is not modelled.
- App.PrescriptionStore.Open: medication rows are returned as a map keyed by sequence rather than the `ORDER BY sequence` list.
- App.HomeGet: the `med_data` dict's key order is not modelled, only its keys and lists.
- App.HomeGet requires that the session user exist in the users table. For a missing row the source raises an error on `username_row["username"]`.
- App.AccountPage does not model the user row it passes to the template.
- The GET pages of `/register`, `/check`, `/password`, `/change`, `/search` and `/edit` only render a template and are not modelled separately. The edit GET shares `Open` with `/view`.
- Python `int()` parsing of the request id is the parameter `id`.
- SQLite's conversion of the search id text to an integer is the parameter `idAsInteger`.
