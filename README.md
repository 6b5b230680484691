# Superadmin dashboard: a verified model of its table engine, detail helpers and navigation state

This project is a Dafny model of the superadmin dashboard's logic. A
super-administrator signs in, then browses a directory of client accounts
and opens one client's detail screen. The model has four parts:

- **The client directory table** (`ClientListView`):
  - a case-insensitive search over name, e-mail and index name;
  - a sort chosen by a column key, whose comparator never answers "equal";
  - pagination with 5, 10, 25 or 50 rows per page;
  - the "Showing X to Y of N results" line;
  - the compact page bar. It shows the first page, the last page and the current page with its two neighbours, with an ellipsis wherever pages are skipped;
  - the query state that the column headers, search box, page-size select and Previous/Next/page buttons change.
- **The detail screen's display helpers** (`ClientDetailsView`):
  - the training-type, training-status and badge-style tables;
  - the remaining credits;
  - the item-title fallback chain;
  - the avatar letter;
  - the six-character conversation id;
  - the two fixed-order chart series.
- **The client-management switch** (`ClientManagement`). It shows either the directory or one client's details, never both.
- **The application shell** (`SuperAdminApp`):
  - restoring a session from the browser's key/value store;
  - login and logout;
  - navigation;
  - the mobile sidebar;
  - which screens are rendered.

`Common` holds the shared vocabulary:

- optional values, standing for `?.` chains;
- JavaScript truthiness of optional strings;
- `|| 0` (`OrZero`);
- ASCII case mapping;
- `String.prototype.includes`;
- subsequences.

The properties proved:

- **Filter:** it keeps exactly the matching clients, in order.
- **Sort:**
  - it returns a permutation of its input, ordered by the comparator;
  - the comparator never returns 0: it answers -1 for a client compared with itself and for two clients with equal keys, in both orders;
  - its "put before" relation is a total preorder (total and transitive), and if a is put after b then b is put before a.
- **Pagination:**
  - the pages, laid end to end, reproduce the sorted list;
  - only the last page is short;
  - the range line names exactly the rows on screen;
  - the page bar lists exactly the shown pages (at most five), highlights only the current one, and places each ellipsis between two non-consecutive pages over a page that has no button.
- **Sort header:** clicking the same header twice restores the sort.
- **Detail helpers:**
  - the label tables are exact and one to one;
  - an item's title is never empty;
  - the chart series always hold four entries with zero defaults.
- **Client-management switch:** exactly one child view is shown.
- **Shell:**
  - a session is restored only when both stored keys are non-empty;
  - logout removes just those two keys;
  - while unauthenticated, only the login screen is rendered.

Behaviour of the code that the model keeps:

- An empty search term drops clients whose name, e-mail and index name are all absent (`FilterEmptyTerm`).
- Typing in the search box does not reset the page (`QueryState.TypeSearch`).
- `totalPages` is 0 for an empty list.
- The current page is never clamped, so after a filter shrinks the list the page can lie past the end (`RangeDescribesPage`, `QueryState.Next`).
- The sort comparator returns 1 or -1, never 0 (`Compare`).

Inputs that come from outside the components are parameters: the client list, the typed search term, the view id passed to navigation, and the contents of the key/value store. The `totalPages` argument of `QueryState.Next` and `QueryState.SelectPage` is not external: it is the page count the component derives from the current list, `Derive`'s `totalPages`.

## Model

| member | source | states |
|---|---|---|
| Common.Includes | src/components/superadmin/ClientListView.jsx:71-73 | `includes` is true exactly when the needle occurs at some offset of the haystack |
| Common.Lower | src/components/superadmin/ClientListView.jsx:71-73 | `toLowerCase` on ASCII: same length, no capital left, only capitals changed, and each capital becomes the small letter that upper-cases back to it |
| Common.LowerCharInverse | src/components/superadmin/ClientListView.jsx:71-73 | a capital lower-cases to a small letter that `toUpperCase` turns back into that capital |
| Common.LowerIdempotent | src/components/superadmin/ClientListView.jsx:71-73 | lower-casing twice is lower-casing once |
| Common.UpperChar | src/components/superadmin/ClientDetailsView.jsx:185 | `toUpperCase` of one ASCII character: no lower-case letter left, only lower-case letters changed, and lower-casing undoes the change |
| ClientListView.FieldMatches | src/components/superadmin/ClientListView.jsx:71-73 | one field matches iff it is present and the lower-cased term occurs in the lower-cased field; a field equal to the term always matches |
| ClientListView.Matches | src/components/superadmin/ClientListView.jsx:70-74 | a matching client has at least one searchable field; a client whose name, e-mail or index name equals the term matches |
| ClientListView.FilterClients | src/components/superadmin/ClientListView.jsx:70-74 | the result is an order-preserving subsequence of the clients; each client occurs in it as often as in the input if it matches the term on name, e-mail or index name, else not at all |
| ClientListView.FilterKeepsExactlyMatches | src/components/superadmin/ClientListView.jsx:70-74 | a client is in the filtered list iff it is in the input and matches |
| ClientListView.MatchesEmptyTerm | src/components/superadmin/ClientListView.jsx:70-74 | with the empty term a client matches iff at least one of its three searchable fields is present |
| ClientListView.FilterEmptyTerm | src/components/superadmin/ClientListView.jsx:70-74 | the empty term leaves the list unchanged iff every client has a searchable field |
| ClientListView.ExampleMatches | src/components/superadmin/ClientListView.jsx:72 | the term "y.com" matches the address "B@Y.com" (case ignored) and neither "a@x.com" nor "c@z.com" |
| ClientListView.SearchIsCaseInsensitive | src/components/superadmin/ClientListView.jsx:70-74 | filtering three e-mail-only clients by "y.com" yields exactly the one with "B@Y.com" |
| ClientListView.SortKey | src/components/superadmin/ClientListView.jsx:79-103 | the key is a string exactly for the name and e-mail columns, a number otherwise |
| ClientListView.SortKeyDefaults | src/components/superadmin/ClientListView.jsx:79-103 | a missing name or e-mail reads as '', missing metrics, counters or credits as 0, and any key other than the five columns as the creation time |
| ClientListView.LexLess | src/components/superadmin/ClientListView.jsx:106-108 | string `<`: true iff, after a common prefix, a ends while b goes on or a's next character is the smaller |
| ClientListView.LexTrichotomy | src/components/superadmin/ClientListView.jsx:105-109 | string `<` is a strict total order: exactly one of less, equal, greater |
| ClientListView.LexTransitive | src/components/superadmin/ClientListView.jsx:105-109 | string `<` is transitive |
| ClientListView.KeyTrichotomy | src/components/superadmin/ClientListView.jsx:79-109 | the order on sort keys is a strict total order |
| ClientListView.KeyNotLessTransitive | src/components/superadmin/ClientListView.jsx:79-109 | "not greater than" on sort keys is transitive |
| ClientListView.Compare | src/components/superadmin/ClientListView.jsx:76-110 | the comparator only ever answers 1 or -1 |
| ClientListView.CompareMeansKeyOrder | src/components/superadmin/ClientListView.jsx:105-109 | the comparator answers -1 iff the two keys are already in the chosen direction (a's key not above b's ascending, not below descending) |
| ClientListView.CompareEqualKeys | src/components/superadmin/ClientListView.jsx:105-109 | two clients with equal keys are each put before the other, and a client compared with itself answers -1, never 0 |
| ClientListView.CompareFlip | src/components/superadmin/ClientListView.jsx:105-109 | if a is put after b then b is put before a |
| ClientListView.CompareTransitive | src/components/superadmin/ClientListView.jsx:105-109 | "put before" is transitive; with `CompareFlip` and `KeyTrichotomy` it is a total preorder, though not a consistent comparator in the ECMAScript sense |
| ClientListView.SortedNumericKeys | src/components/superadmin/ClientListView.jsx:88-109 | on a sorted list the numeric keys (counters, creation time) are non-decreasing ascending and non-increasing descending |
| ClientListView.Insert | src/components/superadmin/ClientListView.jsx:76-110 | inserting into a comparator-sorted list adds exactly that client and keeps it sorted |
| ClientListView.SortClients | src/components/superadmin/ClientListView.jsx:76-110 | the sorted list is a permutation of the filtered list, and each earlier client is placed before each later one by the comparator |
| ClientListView.TotalPages | src/components/superadmin/ClientListView.jsx:113 | `ceil(n / p)`: the least t with n <= t·p; 0 exactly for an empty list |
| ClientListView.PageStart | src/components/superadmin/ClientListView.jsx:114 | `startIndex` is never negative for a page from 1 on, and the page ends at page·p |
| ClientListView.PageSlice | src/components/superadmin/ClientListView.jsx:114-115 | the page holds at most p rows, the rows from `startIndex` onward in order; empty exactly when `startIndex` is past the end |
| ClientListView.PagesArePrefix | src/components/superadmin/ClientListView.jsx:114-115 | pages 1..k laid end to end are the first k·p rows (or all of them) |
| ClientListView.PagesReproduce | src/components/superadmin/ClientListView.jsx:113-115 | pages 1..totalPages laid end to end are the whole sorted list |
| ClientListView.OnlyLastPageShort | src/components/superadmin/ClientListView.jsx:113-115 | every page before the last holds exactly p rows |
| ClientListView.ShowingRange | src/components/superadmin/ClientListView.jsx:405-409 | the range line is present iff the list is non-empty, and then it counts all rows, starts at 1 or later and ends at most at the count |
| ClientListView.RangeDescribesPage | src/components/superadmin/ClientListView.jsx:405-409 | on a page holding rows, the line reads startIndex + 1 to startIndex + rows shown, and first..last are exactly the 1-based positions of the rows shown; on a page past the end no rows are shown and first > last |
| ClientListView.PageNumbersFrom | src/components/superadmin/ClientListView.jsx:420-425 | the page numbers are, in increasing order, exactly page 1, the last page and the current page with its neighbours within 1..totalPages |
| ClientListView.PageNumbers | src/components/superadmin/ClientListView.jsx:420-425 | the shown numbers within 1..totalPages in increasing order; with at least one page they start at 1 and end at totalPages, with none they are empty |
| ClientListView.PageNumbersAtMostFive | src/components/superadmin/ClientListView.jsx:420-425 | the page bar never has more than five numbers |
| ClientListView.ControlsAfter | src/components/superadmin/ClientListView.jsx:426-440 | one button per page number and at most one ellipsis before each |
| ClientListView.ControlsAfterLast | src/components/superadmin/ClientListView.jsx:426-440 | the bar never ends with an ellipsis: its last control is the button of the last number |
| ClientListView.PageControls | src/components/superadmin/ClientListView.jsx:420-441 | empty iff there are no pages; otherwise it opens with the button of page 1 and closes with the button of the last page, each highlighted when current |
| ClientListView.ControlsAfterButtons | src/components/superadmin/ClientListView.jsx:426-440 | dropping the ellipses from the bar gives back exactly the page numbers |
| ClientListView.ControlsAfterHighlight | src/components/superadmin/ClientListView.jsx:431-433 | a page button is highlighted iff it is the current page |
| ClientListView.ControlsAfterAdjacent | src/components/superadmin/ClientListView.jsx:426-430 | two buttons side by side are consecutive pages |
| ClientListView.ControlsAfterEllipsis | src/components/superadmin/ClientListView.jsx:426-430 | every ellipsis after the first entry sits between two buttons whose pages are not consecutive |
| ClientListView.PageControlsShape | src/components/superadmin/ClientListView.jsx:420-441 | the bar's buttons are exactly the page numbers, and the bar is well spaced: no ellipsis at either end, none between consecutive pages |
| ClientListView.EllipsisHidesAPage | src/components/superadmin/ClientListView.jsx:420-430 | each ellipsis follows a button, and the page after that button exists but has no button |
| ClientListView.PageNumbersTenAroundFive | src/components/superadmin/ClientListView.jsx:420-425 | ten pages around page 5 give the numbers 1, 4, 5, 6, 10 |
| ClientListView.ControlsAfterOneTenAroundFive | src/components/superadmin/ClientListView.jsx:426-440 | after page 1, the numbers 4, 5, 6, 10 render as … 4 [5] 6 … 10 |
| ClientListView.PageControlsTenAroundFive | src/components/superadmin/ClientListView.jsx:420-441 | ten pages around page 5 render as 1 … 4 [5] 6 … 10 |
| ClientListView.PageControlsThreeFromOne | src/components/superadmin/ClientListView.jsx:420-441 | three pages from page 1 render as [1] 2 3 with no ellipsis |
| ClientListView.NextSort | src/components/superadmin/ClientListView.jsx:117-124 | the clicked column becomes the sort key; the same column flips the direction, a new one starts descending |
| ClientListView.HandleSortTwice | src/components/superadmin/ClientListView.jsx:117-124 | clicking the current column twice restores the sort; clicking a new column twice sorts it ascending |
| ClientListView.QueryState.constructor | src/components/superadmin/ClientListView.jsx:24-28 | initial state: empty term, sorted by creation time descending, page 1, 10 per page |
| ClientListView.QueryState.HandleSort | src/components/superadmin/ClientListView.jsx:117-124 | the sort key and direction become `NextSort` of the old ones; term, page and page size unchanged |
| ClientListView.QueryState.ChoosePageSize | src/components/superadmin/ClientListView.jsx:231-234 | the new page size is set and the page resets to 1; nothing else changes |
| ClientListView.QueryState.TypeSearch | src/components/superadmin/ClientListView.jsx:249 | only the term changes; the page is kept |
| ClientListView.QueryState.Previous | src/components/superadmin/ClientListView.jsx:411-418 | on page 1 nothing happens, otherwise the page goes back by one: it is unchanged iff the button is disabled; the page never drops below 1 |
| ClientListView.QueryState.Next | src/components/superadmin/ClientListView.jsx:443-450 | on page `totalPages` nothing happens, otherwise the page goes forward by one: it is unchanged iff the button is disabled; a page within 1..totalPages stays within it |
| ClientListView.QueryState.SelectPage | src/components/superadmin/ClientListView.jsx:431-436 | choosing a shown page number makes it current, and it lies within 1..totalPages |
| ClientListView.QueryState.Derive | src/components/superadmin/ClientListView.jsx:70-115 | the table shown is the filtered list, a comparator-sorted permutation of it, its page count, the current page's rows, and, only for a non-empty list, the range line, the page bar and the Previous/Next disabled flags (absent for an empty list, whose whole pagination block is hidden) |
| ClientDetailsView.TrainingTypeLabel | src/components/superadmin/ClientDetailsView.jsx:90-98 | a real label exactly for the codes 0 to 3, "Unknown" for anything else or a missing code |
| ClientDetailsView.TrainingStatusLabel | src/components/superadmin/ClientDetailsView.jsx:100-108 | a real label exactly for the codes 1 to 4, "Unknown" otherwise |
| ClientDetailsView.StatusVariant | src/components/superadmin/ClientDetailsView.jsx:110-118 | always one of three badge styles; "outline" iff status 3, "default" iff status 2 or 4, otherwise "secondary" |
| ClientDetailsView.TrainingTypeLabelInjective | src/components/superadmin/ClientDetailsView.jsx:90-98 | two codes with the same real type label are the same code |
| ClientDetailsView.TrainingStatusLabelInjective | src/components/superadmin/ClientDetailsView.jsx:100-108 | two codes with the same real status label are the same code |
| ClientDetailsView.UnknownStatusIsSecondary | src/components/superadmin/ClientDetailsView.jsx:100-118 | a status without a label gets the "secondary" badge |
| ClientDetailsView.LabelTables | src/components/superadmin/ClientDetailsView.jsx:90-118 | the label and badge of each listed code, entry by entry |
| ClientDetailsView.ItemBadges | src/components/superadmin/ClientDetailsView.jsx:584-589 | an unlabelled status is drawn as "secondary", "outline" iff the status is "Minified", "default" iff "Crawled" or "Mapped"; the type badge reads "Unknown" iff the type is missing or outside 0 to 3 |
| ClientDetailsView.RemainingCredits | src/components/superadmin/ClientDetailsView.jsx:314 | remaining plus used equals total (missing ones as 0); negative exactly when more was used than granted |
| ClientDetailsView.FirstTruthy | src/components/superadmin/ClientDetailsView.jsx:592 | a chain of `||` gives the first non-empty candidate, or the fallback when there is none |
| ClientDetailsView.ItemTitle | src/components/superadmin/ClientDetailsView.jsx:592 | an item's heading is never empty; its own title wins when present; "Untitled" when all five candidates are missing or empty |
| ClientDetailsView.AvatarInitial | src/components/superadmin/ClientDetailsView.jsx:185 | one character, never a lower-case letter: the upper-cased first character of a non-empty e-mail, else "U" |
| ClientDetailsView.IdSuffix | src/components/superadmin/ClientDetailsView.jsx:489 | `slice(-6)`: a suffix of the id of length min(6, length) |
| ClientDetailsView.IdSuffixIdempotent | src/components/superadmin/ClientDetailsView.jsx:489 | shortening an already shortened id changes nothing |
| ClientDetailsView.MessageChartData | src/components/superadmin/ClientDetailsView.jsx:145-150 | four slices named Bot, Agent, Visitor, Assistant in that order, with the counts of the breakdown, 0 where missing |
| ClientDetailsView.TrainingStatsData | src/components/superadmin/ClientDetailsView.jsx:152-157 | four bars named Web Pages, Files, Snippets, FAQs in that order, with the statistics' counts, 0 where missing |
| ClientManagement.Management.constructor | src/components/superadmin/ClientManagement.jsx:8-9 | starts on the list with nothing selected |
| ClientManagement.Management.ViewDetails | src/components/superadmin/ClientManagement.jsx:11-14 | the chosen id is selected and the details are shown |
| ClientManagement.Management.BackToList | src/components/superadmin/ClientManagement.jsx:16-19 | back to the list with nothing selected, the initial state whatever came before |
| ClientManagement.Management.Rendered | src/components/superadmin/ClientManagement.jsx:23-31 | in every reachable state exactly one child is rendered: the list iff nothing is selected, else the details of the selected id |
| SuperAdminApp.GetItem | src/components/superadmin/SuperAdminApp.jsx:18-19 | a stored value for a present key, null for a missing one |
| SuperAdminApp.HasSession | src/components/superadmin/SuperAdminApp.jsx:21 | `token && adminData`: both keys are stored and both values are non-empty |
| SuperAdminApp.LogoutEndsSession | src/components/superadmin/SuperAdminApp.jsx:35-41 | after the two removals no session can be restored, and every other key keeps its value |
| SuperAdminApp.App.constructor | src/components/superadmin/SuperAdminApp.jsx:12-15 | starts unauthenticated on the dashboard with no profile and the sidebar closed |
| SuperAdminApp.App.Mount | src/components/superadmin/SuperAdminApp.jsx:17-25 | authenticated and the profile loaded exactly when both token and profile are stored and non-empty; otherwise nothing changes |
| SuperAdminApp.App.HandleLogin | src/components/superadmin/SuperAdminApp.jsx:27-33 | always authenticated; the profile is replaced only when a non-empty one is stored |
| SuperAdminApp.App.HandleLogout | src/components/superadmin/SuperAdminApp.jsx:35-41 | exactly the token and profile keys are removed; unauthenticated, no profile, back on the dashboard |
| SuperAdminApp.App.HandleNavigate | src/components/superadmin/SuperAdminApp.jsx:43-46 | the chosen view is shown and the sidebar closes; session unchanged |
| SuperAdminApp.App.ToggleSidebar | src/components/superadmin/SuperAdminApp.jsx:64 | the sidebar flips; nothing else changes |
| SuperAdminApp.App.CloseSidebar | src/components/superadmin/SuperAdminApp.jsx:76 | the sidebar closes; nothing else changes |
| SuperAdminApp.App.MainContent | src/components/superadmin/SuperAdminApp.jsx:139-194 | at most one main view; none iff the view id is not one of the four known ones; the clients view iff the id is "clients", the dashboard iff "dashboard" |
| SuperAdminApp.App.Screens | src/components/superadmin/SuperAdminApp.jsx:55-194 | unauthenticated, the login screen alone; authenticated, never the login screen, always the menu button and sidebar, the overlay iff the sidebar is open, at most four items |

## Left out

- ClientDetailsView.IdSuffix: the id is assumed present. `_id.slice(-6)` (ClientDetailsView.jsx:489, ClientListView.jsx:337) throws when `_id` is missing, and the model does not represent that failure.
- ClientListView.SortClients: `Array.prototype.sort` sorts a copy in place; the model builds the sorted sequence by insertion over values. The comparator answers -1 for equal keys and for a client against itself, so ECMAScript does not call it consistent, and for such a comparator guarantees only that the result is some permutation of the input, with an implementation-defined order. The model assumes the engine returns a permutation ordered by key, and fixes the order among equal keys to this insertion's.
- The default case of the sort key compares `new Date(createdAt)` objects. The model takes each client's creation instant as an integer, so an unparseable date (NaN) is not modelled.
- String comparison (`LexLess`): JavaScript compares strings by UTF-16 code units. The model compares Dafny characters, which agrees above all for text in the Basic Multilingual Plane.
- Case mapping (`Lower`): `toLowerCase` and `toUpperCase` are modelled for ASCII letters only. Unicode case mapping, including length-changing cases, is not modelled.
- Counters and credit totals are unbounded integers. Floating-point values and `NaN` are not modelled.
- Training items (`TrainingItem`): each `?.` chain (`webPage?.title` and so on) is flattened into one optional string. The intermediate objects are not modelled.
- The endpoint fetches are not modelled: `fetchClients`, `fetchClientDetails`, the loading and error states, and the bearer token. Their results are parameters.
- The key/value store is a map field of the shell (`App.store`). `JSON.parse` of the profile is not modelled, and the profile is kept as the stored text. How the login form writes the two keys (not part of this model) is not modelled either.
- `formatDate` and `formatFileSize` are not modelled: locale formatting and floating-point logarithms.
- The credit-usage bar width is not modelled: floating-point percentage.
- The `toLocaleString` of the remaining credits is not modelled.
- The detail screen's `activeTab` state, its tab switching and the items' URL and file-name lines are not modelled: rendering only.
- The super-administrator's own avatar and name in the sidebar are not modelled: rendering only.
- The login form, the dashboard summary screen and the application entry are not part of this model.
- ClientListView.QueryState.SelectPage: it requires the page to be one of the bar's numbers, because only those have a button.
- ClientListView.QueryState.ChoosePageSize: it requires one of the select's four options, because only those can be chosen.
