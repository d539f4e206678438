# DSA Management page — a Dafny model

This project models the data handling of the teacher's "DSA Management" page
(`frontend/src/pages/teacher/TeacherDSASubmissions.jsx`) of the Top-Coder
front-end. The page:

- loads the roster once when it mounts: the students and the assignments;
- asks for LeetCode statistics once per student that has a LeetCode username,
  and merges each answer into that student's record, in roster order;
- filters both lists by a free-text search query, case-insensitively;
- derives a few view decisions: each student's Complete/Incomplete status,
  each assignment's difficulty colour, whether the "no results" message shows,
  and the text of the error banner.

Modules, one per component:

- `Wrappers`: `Option`, standing for JavaScript's `undefined`/`null` fields.
- `Text`: ASCII lower-casing; `includes` as a scan, proved equal to "occurs at some position".
- `Records`: students, assignments, LeetCode stats, and the outcomes of the two requests.
- `Enrichment`: the per-student stats map and the set of requests it issues.
- `Search`: the two `filter` callbacks and the filters built on them.
- `View`: status, difficulty colour, the no-results condition and the error text.
- `Page`: a class holding the component's six state variables, with the
  fetch-completed transition, the search-box and tab-click updates, and what
  the render shows (spinner, error banner, "no results"). Beside the class, the
  module-level method `Mount` creates the page and runs the load once.

The network is replaced by inputs. The roster request's outcome is a
`RosterResponse` value: the two optional lists, or a failure with an optional
server message. The stats requests are one function `fetch` from a roster position to a
`StatsOutcome`: `fetch(i)` is the outcome of the request that entry `i` sends
(the `data.leetcode` payload, or a failure). Two entries with the same `_id`
send two requests, which can fare differently.

Behaviour of `TeacherDSASubmissions.jsx` that the model keeps and a reader
might not expect:

- A student that sends no stats request (a `null` entry, or no truthy
  `leetcodeUsername`) comes back exactly as it was. Its `leetcodeStats` keeps
  whatever the backend sent, usually absent (`Unset`), and is not set to `null`.
- A failed stats request sets `leetcodeStats` to `null` (`NullStats`). The two
  cases stay apart in the data. Only the stats cell, which is not modelled,
  shows both as "No Stats".
- The error text is the server message only when that message is a non-empty
  string. `''` falls back to "Failed to fetch data", as `||` does.
- A failed load leaves both lists empty. With the initial tab and empty
  query, the page then shows the error banner AND "No students found matching
  your search criteria" (`Mount`).

## Model

| member | source | states |
|---|---|---|
| `Text.LowerChar` | frontend/src/pages/teacher/TeacherDSASubmissions.jsx:98 | the result is never an upper-case ASCII letter; an upper-case letter maps to its lower-case partner and every other character is kept |
| `Text.Lower` | frontend/src/pages/teacher/TeacherDSASubmissions.jsx:98-104 | `toLowerCase` keeps length, leaves no upper-case letter, and changes only upper-case letters (each to its lower-case partner) |
| `Text.LowerIdempotent` | frontend/src/pages/teacher/TeacherDSASubmissions.jsx:290-291 | lower-casing a lower-cased string changes nothing |
| `Text.Includes` | frontend/src/pages/teacher/TeacherDSASubmissions.jsx:100-104 | `hay.includes(needle)` holds exactly when `needle` occurs at some position of `hay` |
| `Text.IncludesEmpty` | frontend/src/pages/teacher/TeacherDSASubmissions.jsx:100-104 | every string, the `''` default included, includes the empty query |
| `Records.HasText` | frontend/src/pages/teacher/TeacherDSASubmissions.jsx:62 | JavaScript truthiness of an optional string: true exactly when the field is present and non-empty |
| `Records.OrEmpty` | frontend/src/pages/teacher/TeacherDSASubmissions.jsx:57-61 | `list || []`: a missing `students` or `assignments` list becomes `[]`, a present one is used as it is |
| `Enrichment.NeedsStats` | frontend/src/pages/teacher/TeacherDSASubmissions.jsx:62 | the guard of the callback: a `null` entry never sends a request; a student sends one exactly when its `leetcodeUsername` is truthy |
| `Enrichment.StatsAfter` | frontend/src/pages/teacher/TeacherDSASubmissions.jsx:69-78 | a successful request attaches exactly its `data.leetcode` payload; a failure sets the field to `null`, never leaving it unset |
| `Enrichment.EnrichEntry` | frontend/src/pages/teacher/TeacherDSASubmissions.jsx:61-80 | a `null` entry, or one without a truthy `leetcodeUsername`, is returned as it is. Otherwise the student keeps every other field and gets the stats its own request produced |
| `Enrichment.Enrich` | frontend/src/pages/teacher/TeacherDSASubmissions.jsx:60-83 | the enriched roster has the input's length and order. Ineligible entries are unchanged. Each eligible entry changes only `leetcodeStats`, to the outcome of the request it sent itself |
| `Enrichment.RequestPositions` | frontend/src/pages/teacher/TeacherDSASubmissions.jsx:60-66 | the positions that send a stats request, strictly increasing, are exactly the entries that need statistics |
| `Enrichment.RequestsFromOnePerEntry` | frontend/src/pages/teacher/TeacherDSASubmissions.jsx:60-66 | the requests sent from one position on match, one for one and in order, the requesting positions from there on |
| `Enrichment.StatsRequests` | frontend/src/pages/teacher/TeacherDSASubmissions.jsx:62-68 | exactly one rankings request per entry that needs statistics, in roster order: the k-th request is for the id of the k-th such entry; none for any other entry |
| `Enrichment.EnrichReadsOnlyRequested` | frontend/src/pages/teacher/TeacherDSASubmissions.jsx:62-68 | two stats oracles that agree on the requesting positions produce the same roster, so ineligible entries depend on no request |
| `Enrichment.EnrichIsolatesFailures` | frontend/src/pages/teacher/TeacherDSASubmissions.jsx:65-79 | an entry's result depends only on the outcome of its own request, so one request's failure leaves every other entry, even one with the same id, as it would otherwise be |
| `Search.KeepWhere` | frontend/src/pages/teacher/TeacherDSASubmissions.jsx:96-97 | `filter` with a null check: every kept entry is non-null and passes, and the result is an ordered subsequence of the input |
| `Search.KeepWhereCount` | frontend/src/pages/teacher/TeacherDSASubmissions.jsx:109-110 | the filter's result holds each passing entry exactly as often as the input does, and no failing or `null` entry |
| `Search.KeepWhereKeeps` | frontend/src/pages/teacher/TeacherDSASubmissions.jsx:96-97 | every non-null entry that passes is in the filter's result |
| `Search.KeepWhereAllPass` | frontend/src/pages/teacher/TeacherDSASubmissions.jsx:96-97 | a callback that accepts every value only drops the `null` entries |
| `Search.NonNull` | frontend/src/pages/teacher/TeacherDSASubmissions.jsx:96-97 | the roster without its `null` entries: null-free, an ordered subsequence of the input, and the input itself when it has no `null` |
| `Search.NonNullCount` | frontend/src/pages/teacher/TeacherDSASubmissions.jsx:96-97 | dropping the `null` entries keeps every other entry exactly as often as it occurs |
| `Search.KeepWhereKeepsAll` | frontend/src/pages/teacher/TeacherDSASubmissions.jsx:109-110 | a list whose entries are all non-null and all pass comes through the filter unchanged |
| `Search.StudentMatches` | frontend/src/pages/teacher/TeacherDSASubmissions.jsx:98-105 | the callback holds exactly when the lower-cased query occurs in the lower-cased name, email, phone, LeetCode or CodeChef username, a missing field reading as `''` |
| `Search.AssignmentMatches` | frontend/src/pages/teacher/TeacherDSASubmissions.jsx:111-116 | the callback holds exactly when the lower-cased query occurs in the lower-cased title, description or difficulty, a missing field reading as `''` |
| `Search.FieldText` | frontend/src/pages/teacher/TeacherDSASubmissions.jsx:100-104 | `field?.toLowerCase() || ''`: a missing field reads as `''`, a present one as its lower-cased text |
| `Search.FilterStudents` | frontend/src/pages/teacher/TeacherDSASubmissions.jsx:96-106 | `filteredStudents` is an ordered, null-free subsequence of `students`. It holds exactly the matching students, each as often as in `students` |
| `Search.FilterAssignments` | frontend/src/pages/teacher/TeacherDSASubmissions.jsx:109-117 | `filteredAssignments` is an ordered, null-free subsequence of `assignments`. It holds exactly the matching assignments, each as often as in `assignments` |
| `Search.FilterStudentsIdempotent` | frontend/src/pages/teacher/TeacherDSASubmissions.jsx:96-106 | filtering the filtered students again with the same query changes nothing |
| `Search.FilterAssignmentsIdempotent` | frontend/src/pages/teacher/TeacherDSASubmissions.jsx:109-117 | filtering the filtered assignments again with the same query changes nothing |
| `Search.EmptyQueryMatches` | frontend/src/pages/teacher/TeacherDSASubmissions.jsx:98-104 | the empty query matches every record, whatever its fields |
| `Search.EmptyQueryKeepsEveryStudent` | frontend/src/pages/teacher/TeacherDSASubmissions.jsx:96-106 | the empty query yields the roster without its `null` entries, in order; a roster without `null` entries comes back unchanged |
| `Search.EmptyQueryKeepsEveryAssignment` | frontend/src/pages/teacher/TeacherDSASubmissions.jsx:109-117 | the empty query yields the assignments without their `null` entries, in order; a list without `null` entries comes back unchanged |
| `View.StatusOf` | frontend/src/pages/teacher/TeacherDSASubmissions.jsx:257-261 | Complete exactly when both usernames are non-empty; a Complete student is always one whose stats were requested |
| `View.StatusIgnoresStats` | frontend/src/pages/teacher/TeacherDSASubmissions.jsx:257 | enrichment never changes a student's status |
| `View.DifficultyColor` | frontend/src/pages/teacher/TeacherDSASubmissions.jsx:289-292 | `success` exactly for a difficulty that lower-cases to "easy", `warning` exactly for "medium". `error` for anything else, a missing difficulty included |
| `View.DifficultyColorIgnoresCase` | frontend/src/pages/teacher/TeacherDSASubmissions.jsx:290-291 | a difficulty label and its lower-cased form get the same colour |
| `View.NoResults` | frontend/src/pages/teacher/TeacherDSASubmissions.jsx:306-307 | the message shows exactly when the active tab is 0 and no non-null student matches the query, or the tab is 1 and no non-null assignment matches it |
| `View.NoResultsIgnoresStats` | frontend/src/pages/teacher/TeacherDSASubmissions.jsx:306-307 | the stats requests' outcomes never decide whether the message shows |
| `View.EmptyQueryNoResults` | frontend/src/pages/teacher/TeacherDSASubmissions.jsx:306-307 | with the empty query the message shows exactly when the active tab's list holds no non-null entry; any tab other than 0 or 1 never shows it |
| `View.ErrorMessage` | frontend/src/pages/teacher/TeacherDSASubmissions.jsx:86 | the server's message when it is a non-empty string, otherwise "Failed to fetch data"; never empty, so the banner always shows |
| `Page.DsaSubmissionsPage.constructor` | frontend/src/pages/teacher/TeacherDSASubmissions.jsx:41-46 | the initial state: loading (so only the spinner shows), no error, empty lists, empty query, tab 0 |
| `Page.DsaSubmissionsPage.ShowsSpinner` | frontend/src/pages/teacher/TeacherDSASubmissions.jsx:130-136 | the spinner shows exactly while loading, and then neither the error banner nor the no-results message does |
| `Page.DsaSubmissionsPage.ShowsErrorBanner` | frontend/src/pages/teacher/TeacherDSASubmissions.jsx:151-155 | the banner shows exactly when loading is over and the error is a non-empty string |
| `Page.DsaSubmissionsPage.ShowsNoResults` | frontend/src/pages/teacher/TeacherDSASubmissions.jsx:306-313 | after loading, the message shows exactly when the active tab is 0 and no non-null student matches the query, or the tab is 1 and no non-null assignment matches it |
| `Page.DsaSubmissionsPage.CompleteFetch` | frontend/src/pages/teacher/TeacherDSASubmissions.jsx:50-90 | after the roster request: on success the assignments (or `[]`) and the enriched students (or `[]`) are stored and the error is untouched, whatever the stats requests did; on failure only the error text is set, and the banner shows; loading ends either way; query and tab are unchanged |
| `Page.DsaSubmissionsPage.SetSearchQuery` | frontend/src/pages/teacher/TeacherDSASubmissions.jsx:174 | typing replaces the query and nothing else |
| `Page.DsaSubmissionsPage.SetActiveTab` | frontend/src/pages/teacher/TeacherDSASubmissions.jsx:160 | clicking a tab replaces the active tab and nothing else; no data is refetched |
| `Page.Mount` | frontend/src/pages/teacher/TeacherDSASubmissions.jsx:49-93 | mounting loads once and ends without the spinner. On failure both lists are empty, the error text is set and both the banner and the no-results message show. On success there is no banner, the lists are the defaulted and enriched response, and the no-results message shows exactly when the roster has no non-null student |

## Left out

- The HTTP calls, the backend URL and the bearer token read from `localStorage`.
  The two requests' outcomes are inputs (`RosterResponse` and the `fetch` oracle).
- `Promise.all` concurrency and async scheduling. Only the resulting
  order-preserving map is modelled, since completion order does not affect it.
- A successful roster response whose `data.data` is missing throws before any
  state is set. The model represents it as `RosterFailed(None)`, with the same
  effect: the error becomes "Failed to fetch data".
- A successful stats response without `data.data.leetcode` attaches
  `undefined`. The model has no separate case for it, and `StatsFetched` always
  carries a payload. A response without `data.data` throws, and that throw is
  an ordinary `StatsFailed`.
- Fields of the wrong JavaScript type. A numeric `name` would make
  `toLowerCase` throw inside the filter; every field is modelled as an
  optional string. A truthy `students` value that is not an array would make
  `.map` throw after the assignments were stored, so the page would end up
  with the assignments AND the error banner. `CompleteFetch` cannot reach that
  state: each response list is an optional sequence, and its failure path
  leaves both lists as they were. A truthy non-array `assignments` value would
  be stored as it is, and the model cannot represent that either.
- `console.error` logging, every JSX/MUI table and chip, the profile links,
  the stats cell, and the wording of the search placeholder and the
  no-results text.
- `formatDate`, because it depends on JavaScript `Date` and locale formatting.
- Text.Lower: lower-cases ASCII letters only, because full Unicode case mapping
  is outside the model; `toLowerCase` also maps non-ASCII letters.
- `frontend/src/pages/teacher/TeacherDashboard.jsx`, `frontend/src/App.jsx`
  and `frontend/src/components/LeetCodeStats.jsx` are not part of this model.
  They hold navigation, routing and chart layout without data logic.
