# Vaccination Coverage Tracker — a verified model of its core

The Vaccination Coverage Tracker is a React dashboard over vaccination records
served by a small Flask backend. This project models in Dafny the parts of it
that compute something:

- the dashboard's filter effect and the country and location choices it offers;
- the history table's badges;
- the three charts: the age-group bars, the monthly series and the coverage map;
- the registration form's field edits, validation order and request body;
- the CSV upload panel's status machine;
- the backend's account handlers (register, login, pending list, approve,
  reject), modelled as a class over a map from user id to row.

Every network call is cut in two. The part before the `await` is a method
that hands back the request it would send. The part after it is a method
that takes the settled outcome as a parameter.

Module layout:

- `Wrappers`: `Option`.
- `Text`: the string operations the components use: `toLowerCase`,
  `includes`, `split`/`join` and string order.
- `Decimal`: `String(n)` and `padStart`.
- `Collections`: `filter`, `Array.from(new Set(...))`, and the
  object-as-counter idiom, modelled as keys in insertion order plus a map.
- `Records`: the rows the API returns.
- One module per core source file: `Dashboard`, `AgeGroupChart`,
  `TimeSeriesChart`, `MapChart`, `RegisterForm`, `DataUpload`, `UserStore`.

Notes on what the code does:

- The dashboard applies no per-user scope restriction to the filtered records.
  Only the country, location and search filters take part.
- The age-group bars come out in the order their groups first appear in the
  data (the order of `Object.keys`), not in a fixed band order. Any non-empty
  group value gets its own bar.
- The map has three colour tiers with strict thresholds, above 80 and above
  50. There are no four tiers at 80/60/40, and no name-matching against
  boundary features. Positions come from a five-entry table or a random
  point near the centre of Cameroon.
- The backend's roles are `user` and `admin`, and approval always promotes
  to `admin`.

## Model

| member | source | states |
|---|---|---|
| Dashboard.Visible | frontent/src/components/Dashboard.js:43-46 | the filtered records are never more than the fetched ones, and a record is among them iff it was fetched and every filter in force accepts it |
| Dashboard.VisibleIsSubsequence | frontent/src/components/Dashboard.js:42-48 | the filtered records are an order-preserving subsequence of the fetched records, so there are never more of them |
| Dashboard.VisibleHonoursFilters | frontent/src/components/Dashboard.js:43-46 | a record is shown iff it was fetched and every filter in force accepts it; with a country, location or search term in force every shown record has that country, that location, or a vaccine type whose lower-case form contains the lower-cased term (a record without a vaccine type is never shown) |
| Dashboard.SearchIgnoresCase | frontent/src/components/Dashboard.js:46 | search terms that lower-case alike show the same records, and lower-casing the term first changes nothing |
| Dashboard.NoFilterShowsEverything | frontent/src/components/Dashboard.js:43-47 | with country and location `all` and an empty search the filtered records are exactly the fetched records, in order |
| Dashboard.Countries | frontent/src/components/Dashboard.js:50 | the country choices have no duplicates and are no more than the records |
| Dashboard.Locations | frontent/src/components/Dashboard.js:51-55 | the location choices have no duplicates and are no more than the records |
| Dashboard.CountriesAreTheDataCountries | frontent/src/components/Dashboard.js:50 | the country choices have no duplicates and are exactly the country values of the fetched records |
| Dashboard.LocationsFollowCountry | frontent/src/components/Dashboard.js:51-55 | the location choices have no duplicates and are exactly the locations of records of the selected country, or of all records under `all` |
| Dashboard.Badges | frontent/src/components/Dashboard.js:219-230 | a cell has no badges iff it is null; otherwise the first badge is a prefix of the cell |
| Dashboard.BadgesPartitionTheCell | frontent/src/components/Dashboard.js:219-230 | a null history cell gives no badge; otherwise there is at least one badge, the badges joined by `, ` give back the cell, and no badge contains `, ` |
| Dashboard.DashboardState.constructor | frontent/src/components/Dashboard.js:13-17 | no data, empty search, country and location `all`, and the filtered view consistent with them |
| Dashboard.DashboardState.ApplyFilters | frontent/src/components/Dashboard.js:42-48 | narrowing by each filter in force in turn leaves exactly the records of the combined selection; the selections and data are untouched |
| Dashboard.DashboardState.DataFetched | frontent/src/components/Dashboard.js:27-33 | the fetched data replaces the old data and the filtered view follows the current selections |
| Dashboard.DashboardState.SetSearchTerm | frontent/src/components/Dashboard.js:99 | the search term changes, the filtered view follows, the country and location are kept |
| Dashboard.DashboardState.SelectCountry | frontent/src/components/Dashboard.js:107 | choosing a country always resets the location to `all`, and the filtered view follows |
| Dashboard.DashboardState.SelectLocation | frontent/src/components/Dashboard.js:119 | the location changes, the country and search are kept, the filtered view follows |
| Text.ContainsIff | frontent/src/components/Dashboard.js:46 | `includes` holds iff the term occurs at some position of the string |
| Text.LowerIdempotent | frontent/src/components/Dashboard.js:46 | lower-casing twice is lower-casing once |
| Text.Split | frontent/src/components/Dashboard.js:219 | `split` gives at least one piece, and the first piece is a prefix of the string |
| Text.JoinSplit | frontent/src/components/Dashboard.js:219 | joining the pieces of a split with the separator gives back the string |
| Text.SplitPiecesAvoidSeparator | frontent/src/components/Dashboard.js:219 | no piece of a split contains the separator |
| Collections.Filter | frontent/src/components/Dashboard.js:44-46 | `filter` keeps exactly the elements satisfying the predicate and is never longer than its input |
| Collections.FilterFilter | frontent/src/components/Dashboard.js:43-46 | filtering twice equals filtering once by the conjunction |
| Collections.Unique | frontent/src/components/Dashboard.js:50 | `Array.from(new Set(xs))` has no duplicates, has the same elements as `xs`, and is no longer than `xs` |
| AgeGroupChart.GroupOf | frontent/src/components/AgeGroupChart.js:6 | a record's group is its age group when that is non-empty, else `Unknown`; never empty |
| AgeGroupChart.CountByGroup | frontent/src/components/AgeGroupChart.js:5-9 | the `reduce` ends with the groups in first-appearance order and, for each group, the number of records in it |
| AgeGroupChart.ChartData | frontent/src/components/AgeGroupChart.js:11 | the bars are the counted groups in key order, each with its count |
| AgeGroupChart.ChartTotal | frontent/src/components/AgeGroupChart.js:5-9 | the bar counts add up to the number of records |
| AgeGroupChart.ChartBars | frontent/src/components/AgeGroupChart.js:5-11 | bar names are distinct; every record's group has a bar and every bar is some record's group; each bar counts exactly the records of its group and at least one; no records, no bars |
| AgeGroupChart.UnknownCollectsMissingGroups | frontent/src/components/AgeGroupChart.js:6 | the `Unknown` bar counts the records with a null or empty group plus those whose group is literally `Unknown` |
| Collections.Histogram | frontent/src/components/AgeGroupChart.js:5-11 | a counted histogram never has two bars with the same key |
| Collections.HistogramTotal | frontent/src/components/AgeGroupChart.js:5-9 | the counts of a histogram add up to the number of keys counted |
| Collections.HistogramShape | frontent/src/components/AgeGroupChart.js:5-11 | histogram keys are distinct and are exactly the counted keys, each counted by its occurrences and at least once |
| TimeSeriesChart.MonthKey | frontent/src/components/TimeSeriesChart.js:12 | an unparseable date gives `NaN-NaN`; a parsed date's key starts with the year and a dash |
| TimeSeriesChart.MonthDigitsReadBack | frontent/src/components/TimeSeriesChart.js:12 | the padded month is two digits that read back as the month |
| TimeSeriesChart.MonthKeyLayout | frontent/src/components/TimeSeriesChart.js:12 | a parsed date's key is the year, a dash, and two digits reading back as the month |
| TimeSeriesChart.FourDigitYearKey | frontent/src/components/TimeSeriesChart.js:12 | for a four-digit year the key is four year digits, `-`, two month digits |
| TimeSeriesChart.KeyOrderIsChronological | frontent/src/components/TimeSeriesChart.js:12-24 | for four-digit years, key order is (year, month) order, and equal keys mean the same month |
| TimeSeriesChart.MonthKeysLength | frontent/src/components/TimeSeriesChart.js:10 | one key is produced per record with a truthy date |
| TimeSeriesChart.CountByMonth | frontent/src/components/TimeSeriesChart.js:8-16 | the `reduce` skips undated records and ends with the month keys in first-appearance order and, for each, its number of records |
| TimeSeriesChart.Insert | frontent/src/components/TimeSeriesChart.js:24 | inserting a bar with a new key into ascending bars keeps them ascending and adds exactly that bar |
| TimeSeriesChart.SortByKey | frontent/src/components/TimeSeriesChart.js:24 | sorting bars with distinct keys gives ascending keys, a permutation of the bars, and the same total |
| TimeSeriesChart.AscendingIsStrict | frontent/src/components/TimeSeriesChart.js:24 | in ascending bars every later key is strictly greater, hence distinct |
| TimeSeriesChart.ChartData | frontent/src/components/TimeSeriesChart.js:19-24 | the component's series is the month histogram sorted by key |
| TimeSeriesChart.SeriesTotal | frontent/src/components/TimeSeriesChart.js:8-16 | the counts add up to the number of records with a truthy date |
| TimeSeriesChart.SeriesAscending | frontent/src/components/TimeSeriesChart.js:19-24 | the keys of the series are strictly ascending and distinct |
| TimeSeriesChart.SeriesPoints | frontent/src/components/TimeSeriesChart.js:8-24 | the series keys are exactly the month keys of the dated records, each counted by its records and at least once; no records, no points |
| TimeSeriesChart.UndatedRecordsAreSkipped | frontent/src/components/TimeSeriesChart.js:10 | adding a record with a falsy date leaves the series unchanged |
| Decimal.NatToString | frontent/src/components/TimeSeriesChart.js:12 | `String(n)` is a non-empty digit string without a leading zero |
| Decimal.ValueOfNatToString | frontent/src/components/TimeSeriesChart.js:12 | reading `String(n)` back gives `n` |
| Decimal.FixedDigitsOrder | frontent/src/components/TimeSeriesChart.js:24 | fixed-width digit strings compare as their numbers do |
| Text.BelowIrreflexive | frontent/src/components/TimeSeriesChart.js:24 | no key sorts before itself |
| Text.BelowTransitive | frontent/src/components/TimeSeriesChart.js:24 | the key order is transitive |
| Text.BelowTotal | frontent/src/components/TimeSeriesChart.js:24 | of two different keys one sorts before the other |
| MapChart.TierOf | frontent/src/components/MapChart.js:34 | green iff the rate is above 80, amber iff above 50 and at most 80, red iff at most 50 (a null rate compares as 0) |
| MapChart.TierBoundaries | frontent/src/components/MapChart.js:34 | exactly 80 is amber, exactly 50 is red, a missing rate is red |
| MapChart.TierMonotone | frontent/src/components/MapChart.js:34 | a higher coverage never gets a worse tier |
| MapChart.FillColorsDistinct | frontent/src/components/MapChart.js:34 | distinct tiers have distinct colours |
| MapChart.KnownCoords | frontent/src/components/MapChart.js:12-18 | a name has a table entry iff it is one of the five departments |
| MapChart.Coords | frontent/src/components/MapChart.js:11-19 | a department of the table gets its table entry; any other name gets a point within half a degree of the centre of Cameroon |
| MapChart.DepartmentsAreFixed | frontent/src/components/MapChart.js:12-18 | Mfoundi, Wouri, Diamaré, Fako and Mezam are always at their fixed coordinates, whatever the random draw |
| MapChart.Markers | frontent/src/components/MapChart.js:29-34 | one marker per record, in record order, with the record's location as title, its coverage tier, and its table position when it has one |
| RegisterForm.FinalCompany | frontent/src/components/RegisterForm.js:75 | the typed organisation when "Other" was chosen, else the selected one |
| RegisterForm.Check | frontent/src/components/RegisterForm.js:77-82 | "fill all fields" iff a demanded field is empty; "passwords differ" iff all are filled and password and confirmation differ; no alert iff filled and matching |
| RegisterForm.Payload | frontent/src/components/RegisterForm.js:86 | the request's `company` is the final organisation, and every other field of the form is carried over unchanged |
| RegisterForm.PayloadReplacesCompany | frontent/src/components/RegisterForm.js:86 | the request equals the form except that `company` holds the final organisation |
| RegisterForm.SentRequestIsComplete | frontent/src/components/RegisterForm.js:77-86 | a request that passes the checks has every demanded field non-empty and a confirmed password |
| RegisterForm.FailureText | frontent/src/components/RegisterForm.js:89 | the alert after a failure is the server's error when it is present and non-empty, else `Erreur de connexion`; never empty |
| RegisterForm.RegistrationForm.constructor | frontent/src/components/RegisterForm.js:58-64 | all nine fields empty, no "Other" field, no alert, not succeeded, not loading |
| RegisterForm.RegistrationForm.HandleChange | frontent/src/components/RegisterForm.js:66-70 | only the named field changes; the "Other" field shows iff a company change chose `Other`, and only a company change touches it |
| RegisterForm.RegistrationForm.Submit | frontent/src/components/RegisterForm.js:72-86 | the alert is the outcome of the checks; a request is sent, and loading starts, exactly when they pass, and it is the form with the final organisation |
| RegisterForm.RegistrationForm.Settle | frontent/src/components/RegisterForm.js:87-92 | success sets the success flag, failure sets the failure alert, and loading ends either way |
| DataUpload.ReplyMessage | frontent/src/components/DataUpload.js:25-29 | success gives `Succès : ` followed by the server message, or by `undefined` when the reply has none; failure gives the server error, or the fallback text when it is absent or empty |
| DataUpload.SettledMessageIsShown | frontent/src/components/DataUpload.js:25-29 | a settled upload always has a message, and a success message is never the failure fallback |
| DataUpload.Uploader.constructor | frontent/src/components/DataUpload.js:6-8 | no file, idle, empty message, no upload button |
| DataUpload.Uploader.ShowUploadButton | frontent/src/components/DataUpload.js:48 | the upload button shows iff a file is set and no upload is in flight |
| DataUpload.Uploader.HandleFileChange | frontent/src/components/DataUpload.js:10-13 | the chosen file replaces the old one, status becomes idle, the message stays; the button shows iff a file was chosen |
| DataUpload.Uploader.StartUpload | frontent/src/components/DataUpload.js:15-20 | without a file nothing changes and nothing is sent; with one the status is uploading, the button is hidden and the file is sent |
| DataUpload.Uploader.Settle | frontent/src/components/DataUpload.js:21-30 | success or error status according to the reply, the reply's message, the file kept; the button shows again iff a file is set |
| UserStore.HashPassword | backend/app.py:50 | a fresh hash matches exactly the password it was made from |
| UserStore.NewUser | backend/app.py:59-63 | the inserted row is a provisional `user` whose scope is its country and whose hash matches the given password |
| UserStore.Promoted | backend/app.py:129-133 | approval makes the row an active admin with the given scope and changes nothing else about it |
| UserStore.InsertKeepsEmailsUnique | backend/app.py:55-63 | inserting a row with an unused email keeps emails unique and adds its id to the pending ids |
| UserStore.PromoteKeepsEmailsUnique | backend/app.py:127-134 | approving keeps emails unique and removes the id from the pending ids |
| UserStore.RemoveKeepsEmailsUnique | backend/app.py:157-158 | deleting keeps emails unique and removes the id from the pending ids |
| UserStore.EmailNamesOneUser | backend/app.py:78-83 | with unique emails an email names at most one row |
| UserStore.Users.Register | backend/app.py:36-70 | 400 and no change without a name, email or password; 409 and no change for a used email; otherwise 201 and exactly one new provisional row under a fresh id; emails stay unique |
| UserStore.Users.Login | backend/app.py:72-96 | 200 with the user's profile (no hash) iff a user has that email and the password matches; 500 when a known email comes without a password; 401 otherwise |
| UserStore.Users.PendingUsers | backend/app.py:100-111 | exactly one row per provisional user, and nothing else |
| UserStore.Users.Approve | backend/app.py:113-147 | an existing user becomes an active admin with the given scope, the others are unchanged; an unknown id changes nothing; 200 either way |
| UserStore.Users.Reject | backend/app.py:149-163 | the row with that id is deleted and the others are unchanged; 200 even when the id is absent |

## Left out

- Network calls (`fetchData`, `fetchHistory`, the form and upload posts) are
  not modelled as I/O. Their outcomes are parameters of the `Settle` and
  `DataFetched` methods. A failed dashboard fetch changes nothing, so it has
  no method.
- A late reply racing a newer one, and React's batching of state updates,
  are not modelled. Each handler runs to completion in turn.
- JSX rendering, styling, dark mode, the translation tables and
  `window.print()` are left out. The alert of the registration form is
  modelled by kind rather than by its translated text.
- The coverage average on the dashboard is left out. It needs floating-point
  division and `toFixed`.
- `toLocaleString` number and date formatting is left out.
- `new Date(...)` parsing is left out. A record's date arrives already
  classified as missing, unparseable (key `NaN-NaN`) or a (year, month) pair.
- `localeCompare` is modelled as code-point order. Code-point order matches
  code-unit order below U+10000, and it agrees with locale order on the
  digit-and-dash keys.
- `toLowerCase` is modelled for ASCII and Latin-1 letters only.
- Strings are sequences of Unicode scalar values. Surrogate pairs are not
  modelled: a character above U+FFFF is one element here but two code units
  in JavaScript, so `.length`, `includes` and `<` can differ for such
  characters.
- The `Math.random` draws of `getCoords` are parameters, one pair per record.
- The map's tiles, zoom and popups are left out.
- A coverage rate is modelled as a number or null. A rate sent as a numeric
  string compares the same way.
- MapChart.Markers: states each marker's title, tier and table position. It
  does not state the radius or the random fallback position, which
  `MapChart.Coords` covers.
- Numbers are JavaScript doubles but are modelled as exact reals. This
  covers coverage rates, the map's coordinates and the marker radius. In
  doubles, a sum like `7.3697 + (Math.random() - 0.5)` can round onto the
  upper bound that `MapChart.Coords` states as open.
- Object keys that JavaScript orders or looks up specially are not modelled.
  Integer-like age groups would be listed first, and `constructor` or
  `__proto__` would hit the prototype. The model treats every key as a plain
  key in insertion order.
- Password hashing is idealised: a hash matches exactly its own password.
  werkzeug's algorithm is not modelled. The salt is carried in the hash but
  plays no part in matching.
- SQL, connections, commits, mail sending, the `string_agg` history query
  and the exception-to-500 paths are left out. The one exception kept is
  login without a password, which is answered with 500 (`Crash`).
- JSON fields of a type other than string or integer are not modelled.
- The register race is not modelled: two concurrent requests with the same
  email could both pass the lookup.
- The upload endpoint itself is not part of this model: `backend/app.py`
  has no `/api/upload` route.
- `backend/app.py` `get_vaccination_data` and `get_history` only read
  tables, so they are left out.
- `backend/import_csv.py` and `backend/generate_data.py` are left out.
- The login form is left out. It is a post plus an empty-field guard.
- `App.js`, `index.js` and the Tailwind configuration are left out. They
  only bootstrap and style the application.
