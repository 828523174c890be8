# Kotak Saran: a verified model of the suggestion box core

Kotak Saran Mahasiswa is a student suggestion box written as a single React
component. Students send suggestions ("aspirasi"), either anonymously or
under a name. A faculty administrator logs in to change the status of a
suggestion, delete it, and export a report. A faculty leader ("pimpinan")
logs in to read the recap. This project models the plain logic mixed into
the component's handlers and proves what that logic promises:

- **Submission rule** (`handleSend`). A form with a blank title (`judul`) or
  body (`isi`) is rejected. "Blank" means empty after ECMAScript's `trim`.
  Otherwise the form builds a new row. The name falls back to `"Anonim"`, the
  status starts at `"baru"`, and the row is put in front of the collection.
  This is module `Suggestions` plus `Store.SuggestionTable.Send`.
- **Credential check** (`Login.handle`). The check finds the first demo
  account whose username and password both match exactly. It also covers
  which dashboard a logged-in role is shown. This is module `Accounts`.
- **Category recap**. This is the `reduce` in both dashboards, modelled as a
  loop over a `map` (`Stats.CategoryStats`). Its result is tied to the fold
  `Stats.StatsOf` and to an independent count `Stats.Count`.
- **Admin mutations** (`updateStatus`, `removeRow`). Both are modelled as
  changes to the rows of a `SuggestionTable` object. They are specified by
  the functions `Store.WithStatus` and `Store.WithoutId`.
- **CSV report** (`exportCSV`). The header is the seven column names. Each
  field is `JSON.stringify(s[h] ?? "")`. Fields are joined by `,` and lines
  by `\n`. Module `Json` models string escaping as section 7 of RFC 8259
  describes it, with the escapes ECMAScript's `JSON.stringify` picks. It also
  has a reader for those literals. Module `Csv` proves three things:
  splitting the report at line feeds gives `1 + n` lines, the first line is
  the header, and each further line reads back as the seven fields of its
  row, in column order.

Modules: `Common` holds Option and Result. `Strings` models `trim`, `join`
and `split`. The modules `Json`, `Csv`, `Suggestions`, `Store`, `Stats` and
`Accounts` follow the components listed above.

The model follows the code as written:
- `update(...).eq('id', id)` and `delete().eq('id', id)` matching no row are
  silent no-ops, and no error is raised (`Store.WithStatusAbsent`,
  `Store.WithoutIdAbsent`).
- No role check guards `updateStatus` or `removeRow`. The only gate is which
  dashboard is rendered (`Accounts.DashboardFor`).
- `updateStatus` writes whatever status text it is given. The buttons pass
  only `"diproses"` and `"selesai"`.
- The fallback author name is `"Anonim"`. The category selector offers
  `Fasilitas`, `Akademik`, `Administrasi` and `Umum`; the model takes the
  category as given.
- Quotes inside a field are escaped JSON-style as `\"`. They are not doubled
  as RFC 4180 does it. A reader that expects RFC 4180 quoting would split
  such a field differently. The model specifies the report by its
  JSON-literal reader.

## Model

| member | source | states |
|---|---|---|
| `Strings.TrimStart` | src/KotakSaranApp.jsx:233 | the result is the suffix left after removing every leading character `trim` removes; it does not start with such a character |
| `Strings.TrimEnd` | src/KotakSaranApp.jsx:233 | the result is the prefix left after removing every trailing character `trim` removes; it does not end with such a character |
| `Strings.BlankIffAllTrimmable` | src/KotakSaranApp.jsx:233 | `!s.trim()` holds exactly when every character of `s` is whitespace or a line terminator |
| `Strings.SplitJoin` | src/KotakSaranApp.jsx:496-499 | splitting at the separator undoes `join` when no piece contains the separator |
| `Suggestions.AuthorName` | src/KotakSaranApp.jsx:240 | the name is never empty; it is `"Anonim"` in anonymous mode or when the supplied name is empty, and the supplied name otherwise |
| `Suggestions.NewSuggestion` | src/KotakSaranApp.jsx:233-246 | rejected with "Judul dan isi wajib diisi." exactly when the title or the body is blank; otherwise the id and date are the given clock readings, the status is `"baru"`, the title and body are kept untrimmed, and the row is well formed |
| `Suggestions.WhitespaceOnlyRejected` | src/KotakSaranApp.jsx:233-236 | a title or body made only of whitespace is rejected |
| `Suggestions.VisibleTextAccepted` | src/KotakSaranApp.jsx:233-243 | a title and body that each hold one visible character are accepted and stored as typed |
| `Store.SuggestionTable.Send` | src/KotakSaranApp.jsx:230-255 | a rejected form leaves the rows unchanged; an accepted one makes the rows `[newItem] + old rows`, one longer with the old rows in order; when the clock reading `id` exceeds every stored id, the invariant (all rows well formed, ids unique, newest first) is preserved |
| `Store.SuggestionTable.constructor` | src/KotakSaranApp.jsx:248 | the table holds the rows read back; rows that are well formed, uniquely identified and newest first establish the invariant |
| `Store.PrependNewest` | src/KotakSaranApp.jsx:239-249 | a new row whose id (the clock reading) exceeds every stored id keeps the list newest first and the ids unique |
| `Store.PrependWellFormed` | src/KotakSaranApp.jsx:248-249 | prepending a well-formed row keeps every row well formed |
| `Store.SuggestionTable.UpdateStatus` | src/KotakSaranApp.jsx:453-457 | the rows become `WithStatus(old rows, id, status)`: same length, rows with the id get the new status, all others unchanged; the invariant (well formed, unique ids, newest first) is kept for a known status |
| `Store.WithStatusAt` | src/KotakSaranApp.jsx:454-457 | a status update keeps the length; each row with the id equals the old row with only `status` replaced, every other row is unchanged |
| `Store.OnlyStatusChanges` | src/KotakSaranApp.jsx:456 | after an update a row differs from its old version in the status field only, and the rows with the id carry the new status |
| `Store.WithStatusAbsent` | src/KotakSaranApp.jsx:453-465 | updating an id that no row carries changes nothing and raises no error |
| `Store.WithStatusIdempotent` | src/KotakSaranApp.jsx:568-580 | pressing the same status button twice has the same effect as once |
| `Store.WithStatusWellFormed` | src/KotakSaranApp.jsx:453-457 | a status update to one of `baru`/`diproses`/`selesai` keeps every row well formed |
| `Store.WithStatusKeepsOrder` | src/KotakSaranApp.jsx:453-457 | a status update keeps the rows newest first and their ids unique |
| `Store.SuggestionTable.RemoveRow` | src/KotakSaranApp.jsx:468-474 | the rows become `WithoutId(old rows, id)`: a row survives exactly when it was there with another id; the length drops by the number of rows with the id; the invariant is kept |
| `Store.WithoutIdMembers` | src/KotakSaranApp.jsx:471-474 | a row is in the result exactly when it is in the input and carries another id |
| `Store.WithoutIdAppend` | src/KotakSaranApp.jsx:471-474 | delete distributes over concatenation, so the survivors keep their relative order |
| `Store.WithoutIdLength` | src/KotakSaranApp.jsx:471-474 | a delete removes exactly as many rows as carry the id |
| `Store.WithoutIdAbsent` | src/KotakSaranApp.jsx:468-482 | deleting an id that no row carries changes nothing and raises no error |
| `Store.WithoutIdSingle` | src/KotakSaranApp.jsx:471-474 | deleting the id of the only row that has it leaves the rows before and after it |
| `Store.RemovesExactlyOne` | src/KotakSaranApp.jsx:471-474 | with unique ids, deleting row `k`'s id removes that row and nothing else |
| `Store.WithoutIdNewestFirst` | src/KotakSaranApp.jsx:471-474 | a delete keeps the rows newest first |
| `Store.WithoutIdUnique` | src/KotakSaranApp.jsx:471-474 | a delete keeps the ids unique |
| `Store.WithoutIdWellFormed` | src/KotakSaranApp.jsx:471-474 | a delete keeps every row well formed |
| `Store.SendAsWired` | src/KotakSaranApp.jsx:94-98 | as wired, the form's row goes to browser storage only; the remote table the dashboards list is unchanged |
| `Store.AcceptedButNotListed` | src/KotakSaranApp.jsx:222-253 | a concrete accepted submission leaves the dashboards' (empty) list empty |
| `Stats.CategoryStats` | src/KotakSaranApp.jsx:442-445 | the loop computes the fold `StatsOf`; a category is a key exactly when its count is positive, and each key maps to the number of suggestions with that category |
| `Stats.StatsOfCounts` | src/KotakSaranApp.jsx:603-606 | the recap's keys are exactly the categories with a positive count, and each value is that count |
| `Stats.CountPositive` | src/KotakSaranApp.jsx:442-445 | a category's count is positive exactly when some suggestion carries it, so categories without suggestions are absent |
| `Stats.StatsTotal` | src/KotakSaranApp.jsx:539 | the counts of the recap add up to `suggestions.length`, the displayed total |
| `Stats.StatsExample` | src/KotakSaranApp.jsx:442-445 | two "Fasilitas" suggestions and one "Akademik" give exactly `{Fasilitas: 2, Akademik: 1}` |
| `Accounts.Login` | src/KotakSaranApp.jsx:383-390 | fails exactly when no account matches on both username and password; on success returns the first matching account |
| `Accounts.DemoLogin` | src/KotakSaranApp.jsx:28-43 | with the demo accounts, login succeeds for exactly `admin`/`admin123` and `pimpinan`/`pimpinan123`, returning the matching account |
| `Accounts.UsernameAloneFails` | src/KotakSaranApp.jsx:383-385 | a username whose password does not match is refused |
| `Accounts.DemoDashboards` | src/KotakSaranApp.jsx:112-126 | the dashboard with the mutation buttons is reached only with the admin credentials, the read-only leader dashboard only with the leader credentials |
| `Strings.Trim` | src/KotakSaranApp.jsx:233 | defines `trim`; the result is no longer than the input and neither starts nor ends with a trimmable character; its blank test is characterised by `Strings.BlankIffAllTrimmable` |
| `Strings.Join` | src/KotakSaranApp.jsx:496-499 | defines `join` on a one-character separator; the first piece is a prefix of the result; `Strings.SplitJoin` proves splitting undoes it |
| `Json.EscapeChar` | src/KotakSaranApp.jsx:496 | an escape sequence (starting with a backslash) is written exactly for control characters, the quote and the backslash; any other character is written as itself |
| `Json.Decimal` | src/KotakSaranApp.jsx:496 | a number is written as a non-empty digit string with no leading zero (except `0` itself); `Json.DecimalDigits` proves its value |
| `Json.EscapeHasNoControl` | src/KotakSaranApp.jsx:496 | an escaped string holds no control character, so no raw line feed |
| `Json.EscapeThenParse` | src/KotakSaranApp.jsx:496 | the JSON reader recovers every escaped string and the text after its closing quote |
| `Json.QuoteRoundTrip` | src/KotakSaranApp.jsx:496 | reading back `JSON.stringify(s)` yields `s` |
| `Json.DecimalDigits` | src/KotakSaranApp.jsx:496 | a stringified id is a non-empty run of digits that denotes the id |
| `Json.StringifyRoundTrip` | src/KotakSaranApp.jsx:496 | reading back any stringified value (string, number or null) yields it and the rest of the line |
| `Csv.HeaderLineColumns` | src/KotakSaranApp.jsx:486-494 | the header line splits at commas into exactly `id,nama,kategori,judul,isi,status,tanggal`, and it holds no line feed |
| `Csv.ParseFieldsJoin` | src/KotakSaranApp.jsx:496 | a comma-joined run of stringified values reads back as those values; a comma inside a quoted field does not split it |
| `Csv.RowReadBack` | src/KotakSaranApp.jsx:495-497 | every data line reads back as exactly seven values, the row's fields in header order |
| `Csv.CellAt` | src/KotakSaranApp.jsx:496 | field `i` is the row's value under column `i`; a missing or null field is written as `""` |
| `Csv.RowHasNoLineFeed` | src/KotakSaranApp.jsx:496 | a data line holds no line feed, because escaping turns line feeds inside fields into `\n` |
| `Csv.ExportLines` | src/KotakSaranApp.jsx:499 | splitting the report at line feeds gives the header line followed by one line per row, in input order |
| `Csv.ExportShape` | src/KotakSaranApp.jsx:485-499 | the report has exactly `1 + n` lines: the first is the header, and line `i + 1` reads back as row `i`'s seven fields |
| `Csv.ExportSuggestionsShape` | src/KotakSaranApp.jsx:485-499 | for stored suggestions, line `i + 1` reads back as suggestion `i`'s id as a number followed by its six text fields |
| `Csv.IdUnquoted` | src/KotakSaranApp.jsx:496 | the numeric id is written as bare decimal digits, without quotes |
| `Csv.ExportCsv` | src/KotakSaranApp.jsx:499 | defines the report; it starts with the header line and is exactly the header line for no rows; its line structure is `Csv.ExportLines` and `Csv.ExportShape` |
| `Json.Quote` | src/KotakSaranApp.jsx:496 | defines `JSON.stringify` of a string; its properties are `Json.QuoteRoundTrip` and `Json.EscapeHasNoControl` |
| `Json.Stringify` | src/KotakSaranApp.jsx:496 | defines `JSON.stringify` of a field value; its properties are `Json.StringifyRoundTrip` and `Json.StringifyHasNoControl` |
| `Csv.Coalesce` | src/KotakSaranApp.jsx:496 | defines `s[h] ?? ""`; its property is `Csv.CellAt` (a missing or null field is written as `""`) |
| `Csv.Cells` | src/KotakSaranApp.jsx:495-496 | defines the seven values of a row in header order; its properties are `Csv.CellAt` and `Csv.RowReadBack` |
| `Csv.RowLine` | src/KotakSaranApp.jsx:495-497 | defines one data line; its properties are `Csv.RowReadBack` and `Csv.RowHasNoLineFeed` |
| `Store.WithStatus` | src/KotakSaranApp.jsx:453-457 | defines the status update on the rows; it keeps the length; its properties are `Store.WithStatusAt`, `Store.OnlyStatusChanges` and `Store.WithStatusKeepsOrder` |
| `Store.WithoutId` | src/KotakSaranApp.jsx:471-474 | defines the delete on the rows; the result is no longer than the input and holds no row with the id; its properties are `Store.WithoutIdMembers`, `Store.WithoutIdAppend` and `Store.WithoutIdLength` |
| `Stats.StatsOf` | src/KotakSaranApp.jsx:442-445 | defines the reduce as a left fold; it has at most one key per suggestion and every value is at least 1; `Stats.StatsOfCounts` ties it to `Stats.Count` |
| `Accounts.DashboardFor` | src/KotakSaranApp.jsx:112-126 | defines which dashboard is rendered for the logged-in user; its property is `Accounts.DemoDashboards` |

## Findings

| source | as written | input that shows it | evidently intended | confidence | as-written member | corrected member |
|---|---|---|---|---|---|---|
| src/KotakSaranApp.jsx:94-98, 222, 248-253 | The app passes its refresh callback as `onSubmitSuccess`. `SubmitForm` reads a prop named `onSubmit`, and `handleSend` writes only to browser storage. The dashboards list the remote table, which never receives the new suggestion. | A form with title "Wi-Fi lambat", body "Tolong diperbaiki" and an empty remote table. The form reports success, and the dashboards still list nothing. | The comments at lines 68 and 96 say the form inserts new rows into the remote table and then refreshes the list, so a sent suggestion should appear in the list the dashboards show. | high; not executed | `Store.SendAsWired`, `Store.AcceptedButNotListed` | `Store.SuggestionTable.Send` |

## Left out

- React rendering, `useState`/`useEffect`/`useCallback`, switching between screens, and form field bindings are UI plumbing. This includes the form's success and error messages and the form reset after a send (src/KotakSaranApp.jsx:255-261).
- The client library calls for select, order, update and delete are network I/O. The model keeps only their effect on one sequence of rows. The re-fetch after each mutation and the server-side ordering by `tanggal` are not modelled, because the remote store does that sorting. Failed calls, which are only logged with `console.error`, are not modelled either, and neither is the `loading` flag.
- Browser storage (`localStorage` and `JSON.parse` of what it holds) is browser I/O. The stored rows are the table's current rows.
- `Date.now()` and `new Date().toISOString()` are clock readings. They are the parameters `id` and `tanggal` of `Send`. The newest-first order is stated on ids, which are the millisecond clock readings.
- `toLocaleString`, `Blob`, `URL.createObjectURL`, the download link and `window.confirm` are browser and locale calls. `RemoveRow` models a delete that the user has confirmed.
- Chart rendering and the shaping of `chartData` are left out. The insertion order of the keys of the recap object is not modelled either. A Dafny map has no order, and that order only affects display order.
- `JSON.stringify` is modelled only for strings, non-negative integers and null. Numbers of 10^21 or more, which JavaScript writes in exponent notation, are not modelled. Neither are fractions, nor ids above 2^53 where precision is lost.
- `Json.Quote`: characters are Unicode scalar values, so lone surrogate code units, which `JSON.stringify` writes as `\uXXXX`, do not occur in the model.
- `Stats.CategoryStats`: the model's accumulator starts as an empty map. The JavaScript `{}` inherits properties from `Object.prototype`, so a category named like one of them (for example `constructor`) would not count from 0. The form offers only the four category names.
- No role check guards `updateStatus` or `removeRow` in the source, so the model has none. The only gate is which dashboard is rendered (`Accounts.DashboardFor`).
- The text values of `ROLES` (src/KotakSaranApp.jsx:15-19) are not modelled. The code only compares roles with each other, so the enumeration `Accounts.Role` stands for them.
