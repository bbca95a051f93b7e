# Building compliance report service — Dafny model

The service keeps one spreadsheet of buildings in memory and answers two
questions about a building address. A **search** returns the row whose
`Address` matches. A **report** maps that row to the fields of a Word template.
One of those fields is a FISP compliance label, worked out by a fixed rule.
This project models the logic of `index.js` behind those answers:

- **Values** (`values.dfy`, module `JsValues`): the JavaScript values found in
  spreadsheet cells and request bodies (`undefined`, `null`, strings, integral
  numbers, `NaN`, booleans, Dates). It also holds the built-ins the server
  applies to them: truthiness, `||`, `String(v)`, `trim()` over ECMAScript's
  whitespace and line terminators, and `toLowerCase()` over ASCII.
  A JavaScript expression that can throw a TypeError returns an `Outcome`.
- **Compliance rule and mapper** (`compliance.dfy`, module `Compliance`):
  `determineCompliance` takes the clock as a parameter `now`. It also takes
  `new Date(string)` parsing as a parameter `parse` (None is an Invalid Date).
  The rules apply first-match-wins:
  1. UNSAFE or No Report Filed gives Non-Compliant.
  2. Otherwise SWARMP, or a last filing status containing SWARMP, gives In
     Compliance.
  3. Otherwise a valid due date strictly before `now` gives Non-Compliant.
  4. Otherwise the label is In Compliance.

  `mapExcel` projects the row onto exactly six keys.
- **Normaliser** (`normalise.dfy`, module `Normalise`): the loop of the report
  handler that writes `"N/A"` in place of every empty-like value.
- **Lookup** (`lookup.dfy`, module `Lookup`): `Array.find` as a first-match
  scan, and the per-row address test of each POST handler.
- **Server** (`server.dfy`, module `Server`): the dataset `buildingData` as a
  class `Store` whose `Load` replaces the rows on a successful read and keeps
  them on a failed one. It also holds the search handler and the report
  handler up to the renderer.
- **Scenarios** (`scenarios.dfy`, module `Scenarios`): the end-to-end case of
  a row with status "No Report Filed", looked up as `"123 main st "`.

Behaviours of the code that the model keeps as written:

- `last?.includes('SWARMP')` throws a TypeError when the last filing status is
  a number, a boolean or a Date. So does `r.Address?.toLowerCase()` when a
  row's address is such a value, and `address.trim()` when the request's
  address is a truthy non-string. None of these is caught, so the server
  answers with an error (`Reply.TypeErrorThrown`).
- `new Date(null)` is the epoch, so a `null` due date counts as overdue. A
  missing due date is an Invalid Date, which never counts as earlier than
  `now`.
- The report handler trims the query inside the `find` callback. With an empty
  dataset and a truthy non-string address, the search throws and the report
  answers "not found". This is the only case where the two handlers resolve
  differently (`Server.SearchAndReportAgree`).
- A query made only of blanks is truthy. It trims to `""` and matches a row
  whose address is the empty string.
- The mapper keeps a truthy contact cell, for example `" "` or `"null"`. The
  normaliser then turns it into `"N/A"`. The number `0` is falsy, so the
  mapper replaces it with the default contact. The normaliser keeps `0`.

Two places where the code does less than it suggests:

- The comment at `index.js:55` announces further fields, but `mapExcel` maps
  exactly six keys, and the model maps those six.
- Both handlers reject an address with `!address`, a truthiness test. An
  address made only of blanks is truthy, so it gets through and is trimmed to
  `""` (see above).

## Model

| member | source | states |
|---|---|---|
| `JsValues.Get` | index.js:37-38 | a column the row lacks reads as `undefined`; a present one reads as its cell |
| `JsValues.Truthy` | index.js:53-54 | JavaScript truthiness: `undefined`, `null`, `""`, `0`, `NaN` and `false` are falsy; every other value, a Date included, is truthy |
| `JsValues.Or` | index.js:53-54 | `a \|\| b` is `a` when `a` is truthy, else `b`; the result is truthy iff one operand is |
| `JsValues.StringForm` | index.js:88 | `String(v)`: a string is itself, a number its decimal text, `undefined`/`null`/`NaN` the texts "undefined"/"null"/"NaN", a boolean "true" or "false" |
| `JsValues.NatDigits` | index.js:88 | the decimal text of a natural number is made of digits, spells the number, and starts with 0 only for zero itself |
| `JsValues.DecimalString` | index.js:88 | the text of an integral number has a minus sign exactly when the number is negative, followed by digits that spell its magnitude |
| `JsValues.TrimStart` | index.js:69 | the result is the suffix of the input after its leading whitespace, and starts with a non-blank |
| `JsValues.TrimEnd` | index.js:69 | the result is the prefix of the input before its trailing whitespace, and ends with a non-blank |
| `JsValues.Trim` | index.js:69 | neither end of `s.trim()` is whitespace; a string with non-blank ends is returned unchanged |
| `JsValues.TrimStrips` | index.js:69 | `s.trim()` is a slice of `s` with only whitespace before and after it: the input with its leading and trailing whitespace removed |
| `JsValues.Lower` | index.js:69 | `toLowerCase()` keeps the length, turns each ASCII capital into its small letter, keeps every other character |
| `Compliance.TimeClip` | index.js:41 | a time value outside ±8.64e15 ms is an Invalid Date; one inside is kept |
| `Compliance.DateOf` | index.js:41 | `new Date(v)`: `undefined` and `NaN` give an Invalid Date, `null` the epoch, a string its parse, a number itself, a boolean 0 or 1, a Date cell its own time value, all clipped to the valid range |
| `Compliance.Includes` | index.js:40 | `s.includes(sub)`: `sub` occurs in `s` at some index |
| `Compliance.IncludesSwarmp` | index.js:40 | `last?.includes('SWARMP')` throws exactly for a non-nullish non-string, and is true exactly for a string containing "SWARMP" |
| `Compliance.DetermineCompliance` | index.js:36-44 | the label is one of the two labels; rule 1 beats rule 2 beats the due date; throws exactly when rule 1 does not fire and rule 2 cannot be decided; otherwise Non-Compliant iff the due date is valid and before `now` |
| `Compliance.DueDateIrrelevantOnceDecided` | index.js:39-42 | once rule 1 or rule 2 fires, any due date gives the same result |
| `Compliance.NonComplianceIsStable` | index.js:41-42 | a row non-compliant at `now` is non-compliant at every later time |
| `Compliance.InvalidDueDateIsCompliant` | index.js:41-43 | with rules 1 and 2 silent, an Invalid Date due date gives In Compliance |
| `Compliance.UnsafeExample` | index.js:39 | a row whose only cell is status "UNSAFE" is Non-Compliant |
| `Compliance.SwarmpFilingExample` | index.js:40 | a last filing status "Accepted - SWARMP filed" gives In Compliance |
| `Compliance.DueDateExamples` | index.js:41-43 | a past due date alone gives Non-Compliant, a future one In Compliance |
| `Compliance.MapExcel` | index.js:47-56 | exactly the six output keys; the status is the rule's label, never the raw cell; address, owner (from "Building Owner/Manager") and borough copied; contacts kept when truthy, else the fixed defaults, so never falsy; throws exactly when the rule throws |
| `Compliance.MapExcelIgnoresOtherColumns` | index.js:47-56 | changing a column that neither the mapper nor the rule reads leaves the mapped record unchanged |
| `Normalise.IsEmptyLike` | index.js:88-89 | the normaliser's condition: `undefined`, `null` and `NaN`, or a value whose `String` text, trimmed and lower-cased, is "", "undefined", "null" or "nan" |
| `Normalise.LongTextKept` | index.js:88-89 | a string whose trimmed text is longer than nine characters is not empty-like |
| `Normalise.UnpaddedTextKept` | index.js:88-89 | a string longer than nine characters with non-blank ends is not empty-like |
| `Normalise.NotApplicableKept` | index.js:89 | the placeholder "N/A" is not empty-like |
| `Normalise.NumberKept` | index.js:88-89 | every integral number, zero included, is kept |
| `Normalise.NumeralUnchanged` | index.js:88 | a non-empty text of digits and minus signs is unchanged by `trim()` and `toLowerCase()` |
| `Normalise.NumeralTrimmed` | index.js:88 | a text that starts and ends with a digit or a minus sign is unchanged by `trim()` |
| `Normalise.NumeralLowered` | index.js:88 | a text of digits and minus signs is unchanged by `toLowerCase()` |
| `Normalise.NumeralNotEmptyText` | index.js:89 | a text starting with a digit or a minus sign is none of the empty texts |
| `Normalise.BoolKept` | index.js:88-89 | `true` and `false` are kept |
| `Normalise.EmptyLikeByKind` | index.js:88-89 | a string is replaced iff its trimmed lower-cased text is "", "undefined", "null" or "nan"; `undefined`, `null` and `NaN` always are; numbers, booleans and Dates never are |
| `Normalise.NormalizeValue` | index.js:88-89 | the result is never empty-like; the value is kept iff it is not empty-like, and otherwise becomes "N/A" |
| `Normalise.NormalizedRecord` | index.js:86-90 | same key set; no value empty-like; non-empty-like values kept; empty-like ones become "N/A" |
| `Normalise.NormalizeIdempotent` | index.js:86-90 | normalising a processed record changes nothing |
| `Normalise.NormalizeRecord` | index.js:86-90 | the key-by-key loop produces exactly the normalised record |
| `Lookup.FindFirst` | index.js:70 | `Array.find`: a found row is one of the rows and the test accepts it |
| `Lookup.FindFirstAt` | index.js:70 | once every earlier row is rejected, row `i` decides: accepted gives that row, a throw gives a throw, no row `i` gives not-found |
| `Lookup.FindFirstSound` | index.js:70 | a hit is an accepted row with every earlier row rejected; a miss means every row was rejected; a throw comes from the first row not rejected |
| `Lookup.FindFirstAgree` | index.js:70 | two tests that agree on every row find the same thing |
| `Lookup.Find` | index.js:70 | the scan loop returns what the first-match specification returns |
| `Lookup.AddressKeyOf` | index.js:70 | `r.Address?.toLowerCase()`: nothing for a missing or null address, the lower-cased text for a string, a throw otherwise |
| `Lookup.SearchTest` | index.js:69-70 | a row matches iff its address is a string whose lower-cased form equals the prepared query; throws iff the address read throws |
| `Lookup.ReportTest` | index.js:80 | for a string query, the same test as the search with the query trimmed and lower-cased; for any other query, a throw |
| `Server.FoundReply` | index.js:71-72 | a hit answers with the row, a miss with not-found, a throw with the TypeError |
| `Server.SearchReply` | index.js:66-73 | a record the search answers with is one of the rows, for a string query, and its address matches the query |
| `Server.SearchFindsFirstMatch` | index.js:66-73 | address required iff the address is falsy; a truthy non-string throws; a record is the first row whose lower-cased address equals the trimmed, lower-cased query, and the first such row, after rows that all differ, is the record; a string query throws iff the first row that does not differ has an address that throws; not-found iff every row has no address or a different one |
| `Server.ReportLookup` | index.js:77-81 | address required iff the address is falsy; a found row is one of the rows, the query is a string, and the row's address matches it |
| `Server.SearchAndReportAgree` | index.js:66-81 | search and report lookups give the same answer iff it is not the case of an empty dataset with a truthy non-string address |
| `Server.MappedReply` | index.js:83-90 | a found row gives a record iff mapping it does not throw, and the record has exactly the six output keys |
| `Server.ReportReply` | index.js:76-90 | address required iff the address is falsy; a record comes from a found row and has exactly the six output keys |
| `Server.ReportFields` | index.js:76-90 | a report's fields are exactly the six output keys, none empty-like, and the status field is the rule's label for the row found |
| `Server.MappedFields` | index.js:47-90 | a found row gives a record iff the rule does not throw; each field is the normalised value of what the mapper reads: address, owner, borough, the label, and the contacts after their fallback to the defaults |
| `Server.ReportOutcomes` | index.js:76-90 | not-found iff the lookup misses; a TypeError iff the lookup throws or the found row's rule throws; a found row gives a record iff its rule does not throw, and that record is the found row's mapped, normalised reply |
| `Server.LabelKept` | index.js:52 | both compliance labels pass the normaliser unchanged |
| `Server.Store.constructor` | index.js:19 | the dataset starts empty |
| `Server.Store.Load` | index.js:22-33 | true and the rows replaced by the sheet on a successful read; false and the rows unchanged on a failed one |
| `Server.Store.Search` | index.js:66-73 | the handler's answer over the current rows is the search specification's |
| `Server.Store.GenerateReport` | index.js:76-97 | the handler's answer over the current rows is the report specification's: lookup, map, normalise |
| `Server.Render` | index.js:83-90 | mapping the found row and running the normalising loop gives the specification's mapped reply |
| `Scenarios.DefaultsKept` | index.js:53-54 | the default email, the default phone and "Non-Compliant" pass the normaliser |
| `Scenarios.UnfiledRowReport` | index.js:76-90 | a one-row dataset with status "No Report Filed", asked for its address in any case, gives a report that reads Non-Compliant, has the default contacts and the address, and shows "N/A" for owner and borough |
| `Scenarios.SingleRowFound` | index.js:78-81 | a one-row dataset whose row's lower-cased address equals the trimmed, lower-cased query answers with that row |
| `Scenarios.EndToEndExample` | index.js:76-90 | "123 Main St" looked up as "123 main st " gives Non-Compliant with the default email and phone |

## Left out

- HTTP routing, status codes, headers, CORS, static files, the catch-all route and `app.listen`: plumbing. The handlers' answers are the `Reply` values, and the refresh endpoint is `Store.Load`.
- Reading the workbook (`xlsx.readFile`, `sheet_to_json`): a foreign library. `Store.Load` takes its result (`ReadOk(rows)` or `ReadFailed`) as a parameter.
- Rendering the template (`fs.readFileSync`, PizZip, Docxtemplater), its failure answer and the download headers: foreign libraries. `GenerateReport` ends with the fields it would hand to the renderer.
- The wall clock and date-string parsing: both are parameters (`now`, `parse`).
- JSON request bodies that are objects or arrays, and non-integral numbers: values are limited to `undefined`, `null`, strings, integers, `NaN`, booleans and Dates.
- JsValues.StringForm: it does not give the text of a Date, which depends on the host's time zone. The normaliser treats every Date as kept, since neither a date-time text nor "Invalid Date" is one of the empty texts.
- JsValues.DecimalString: it writes every integral number as plain digits. JavaScript writes numbers of magnitude 1e21 or more in exponent form ("1e+21") and cannot hold integers beyond 2^53 exactly; neither is modelled. Such a text is still not an empty text, so the normaliser's verdict is unaffected.
- JsValues.Lower: it lower-cases ASCII letters only. Full Unicode case mapping is not modelled.
- The order in which the normaliser visits keys: each key is written once, from its own value, so the order does not change the result.
- Console logging.
- `public/script.js`: browser code with no rule logic.
