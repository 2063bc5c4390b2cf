# Jenkins dashboard job tree, in Dafny

This project models the job-tree logic of a Next.js dashboard for Jenkins.
It covers:

- **Server normaliser.** The `GET /api/jenkins` route turns the records of the
  Jenkins JSON API into a tree of jobs and folders. The model is the
  `processJenkinsJobs` function and the API-URL join.
- **Dashboard tree operations.** These are re-basing build timestamps, toggling
  a folder along a path of names, the case-insensitive search that prunes the
  tree, the per-level sort with folders first, and flattening the visible tree
  into table rows.
- **Dashboard state.** The component's `jobs`, `filteredJobs`, `searchQuery`,
  `sortConfig` and `isTestMode` become fields of a class. The React setters
  become assignments to those fields. The search effect, which depends on
  `[searchQuery, jobs]`, is a method that every handler changing either field
  calls at its end.
- **Status card helpers.** These are the second normaliser `normalizeJobData`,
  the folder-aware status mapping and the duration formatter.
- **Build trigger route.** The model covers the checks of the `POST` handler,
  the step-by-step construction of the build URL, and the `GET` handler's
  parameter lookup.

Modules, one file each:

| module | file | content |
|---|---|---|
| `Wrappers` | wrappers.dfy | `Option` |
| `Strings` | strings.dfy | prefix and suffix tests, substring search, ASCII lower-casing, `trim`, string comparison, the trailing-slash join |
| `JenkinsTypes` | jenkins_types.dfy | the job record, the raw API record, tree sizes, and the path, explicit-folder and open-folder invariants |
| `ServerRoute` | server_route.dfy | `processJenkinsJobs` and the API URL |
| `Timestamps` | timestamps.dfy | `updateTimestamps` |
| `FolderToggle` | folder_toggle.dfy | `updateFolderState` |
| `TreeSearch` | tree_search.dfy | `searchInJobs` (a loop) and the search effect's choice |
| `TreeSort` | tree_sort.dfy | the comparator, a stable insertion sort, `sortJobs`, and the next `sortConfig` |
| `JobStatus` | status.dfy | both `getStatus` mappings and `formatDuration` |
| `JobRows` | job_rows.dfy | `renderJobRows` (a loop) |
| `ClientJobs` | client_jobs.dfy | `normalizeJobData` |
| `BuildRoute` | build_route.dfy | `GET` and `POST` of `/api/jenkins/build` |
| `Dashboard` | dashboard.dfy | the `JenkinsDashboard` state and its handlers |

Optional JavaScript fields are `Option`s. A `jobs` list that is present is
`Jobs(items)`; a missing one is `NoJobs`. "Truthy" for an optional flag means
`Some(true)`, and `x || default` applies the default to a missing value and to
`""`. The loops of `searchInJobs` and `renderJobRows` and the `+=` steps of
the build URL are written as methods. Each method is proved equal to a
function, and the properties are proved about that function.

Several facts about the code are worth knowing when reading the contracts:

- After a toggle the search effect runs again, because `jobs` changed. The
  shown list is therefore rebuilt from `jobs`, and the toggle applied to
  `filteredJobs` is discarded.
- With a non-blank query, the rebuilt list reopens every folder the search
  keeps. `Dashboard.JenkinsDashboard.ToggleFolder` states this through
  `SoundList`.
- A sort lasts only until `jobs` or the query change, because the effect
  recomputes `filteredJobs` without sorting it.
- The two normalisers disagree on one record shape. A record with children
  and no `isFolder` flag is a folder on the server and a plain job on the card.
  A missing color is `"grey"` on the server and `"unknown"` on the card.

## Model

| member | source | states |
|---|---|---|
| Strings.WithTrailingSlash | app/api/jenkins/route.ts:38-41 | the result ends with "/" and starts with the input; it is the input itself exactly when the input already ends with "/", and the input plus "/" otherwise |
| Strings.OrDefault | app/api/jenkins/route.ts:112 | a present, non-empty string is kept; a missing or empty one becomes the fallback ("grey" on the server, "unknown" on the card at components/job-status.tsx:12) |
| Strings.TrimEmptyIffBlank | components/jenkins-dashboard.tsx:189 | `trim()` gives "" exactly when every character is whitespace |
| JenkinsTypes.PathIsAncestorNames | app/api/jenkins/route.ts:113-130 | under the path invariant, the node reached by positions `ix` has a path of length `|ix|-1` that lists, root first, the names of the nodes passed on the way |
| JenkinsTypes.PathsFromIsBelow | app/api/jenkins/route.ts:113-130 | a tree in which every node states its ancestors' path, as the server produces, also meets the looser invariant that lets a top-level job omit `path` |
| ServerRoute.ApiUrl | app/api/jenkins/route.ts:38-42 | exactly one "/" is placed between the base URL and the tree query: none is added when the base already ends with "/" |
| ServerRoute.ProcessJob | app/api/jenkins/route.ts:101-133 | name and url are copied; the color defaults to grey; the path is the parent path; lastBuild is copied exactly when present; the node is a folder iff the record has a non-empty `jobs` array; a folder is expanded and has one child per record; a non-folder has no `isFolder`, `expanded` or `jobs` |
| ServerRoute.ProcessJenkinsJobs | app/api/jenkins/route.ts:100-101 | same length as the input, and element i is record i converted (same order) |
| ServerRoute.NormalizeResponse | app/api/jenkins/route.ts:83 | a response without `jobs` gives the empty tree; otherwise one node per record |
| ServerRoute.ProcessedPaths | app/api/jenkins/route.ts:113-130 | every produced node at every depth has as path its parent path followed by its ancestors' names |
| ServerRoute.ProcessedNodePaths | app/api/jenkins/route.ts:113-130 | the same invariant for one record and its subtree |
| ServerRoute.NormalizedPathIsAncestry | app/api/jenkins/route.ts:83 | starting from the empty parent path, a node at depth d has a path of length d naming its ancestors in order |
| ServerRoute.ProcessedFoldersExplicit | app/api/jenkins/route.ts:127-131 | at every depth, every produced folder has `expanded` set and a `jobs` list |
| ServerRoute.ProcessedNodeExplicit | app/api/jenkins/route.ts:127-131 | the same for one record's subtree |
| ServerRoute.ProcessedFullyOpen | app/api/jenkins/route.ts:127-131 | only folders carry children, and every folder is produced expanded |
| ServerRoute.ProcessedNodeOpen | app/api/jenkins/route.ts:127-131 | the same for one record's subtree |
| ServerRoute.ProcessedSize | app/api/jenkins/route.ts:100-135 | the produced tree has exactly as many nodes as there are records at all depths |
| ServerRoute.ProcessedNodeSize | app/api/jenkins/route.ts:100-135 | the same for one record's subtree |
| Timestamps.Offset | components/jenkins-dashboard.tsx:128-129 | the offset is a whole number of hours, between 1 and 24 |
| Timestamps.UpdateJob | components/jenkins-dashboard.tsx:121-148 | only `lastBuild.timestamp` and the children may change; lastBuild stays present or absent; a present timestamp becomes exactly `now - Offset(name)`, 1 to 24 hours before `now`; children are visited only in a folder with a non-empty list, and keep their number |
| Timestamps.UpdateReachesThroughFolders | components/jenkins-dashboard.tsx:118-150 | a node all of whose ancestors are folders is re-based, its timestamp becoming `now - Offset(name)`; a node below a non-folder is left exactly as it is |
| Timestamps.UpdateTimestamps | components/jenkins-dashboard.tsx:118-150 | a map over the list: same length, element i is job i re-based |
| Timestamps.UpdateOnlyTimestamps | components/jenkins-dashboard.tsx:118-150 | with every timestamp erased, the re-based tree equals the original at every depth |
| Timestamps.UpdateJobOnlyTimestamp | components/jenkins-dashboard.tsx:121-148 | the same for one job's subtree |
| Timestamps.UpdateIdempotent | components/jenkins-dashboard.tsx:118-150 | re-basing twice with the same clock reading equals re-basing once |
| Timestamps.UpdateJobIdempotent | components/jenkins-dashboard.tsx:121-148 | the same for one job |
| Timestamps.UpdatePreservesExplicit | components/jenkins-dashboard.tsx:131-146 | re-basing keeps every folder's `expanded` flag and `jobs` list |
| Timestamps.UpdateJobPreservesExplicit | components/jenkins-dashboard.tsx:131-146 | the same for one job's subtree |
| FolderToggle.ToggleJob | components/jenkins-dashboard.tsx:156-173 | a job off the route is returned unchanged, including a non-folder whose name matches; on the route only `expanded` and `jobs` change; the last folder of the path has `expanded` negated and keeps its children, or gets `[]` when it had none; an intermediate folder keeps its flag and its children are toggled one level deeper |
| FolderToggle.UpdateFolderState | components/jenkins-dashboard.tsx:154-175 | the length is kept; jobs off the route are unchanged; element i is job i toggled; a depth past the end of the path (an empty path, for instance) changes nothing |
| FolderToggle.StalePathIsNoOp | components/jenkins-dashboard.tsx:155-173 | on a tree whose folders all carry `jobs`, a path that reaches no folder leaves the list equal to the input |
| FolderToggle.StaleNodeIsNoOp | components/jenkins-dashboard.tsx:156-173 | the same for one job |
| FolderToggle.ToggleTwice | components/jenkins-dashboard.tsx:157-171 | toggling the same path twice gives back the original tree |
| FolderToggle.ToggleJobTwice | components/jenkins-dashboard.tsx:157-171 | the same for one job |
| FolderToggle.ToggleOnlyExpanded | components/jenkins-dashboard.tsx:159-171 | with every `expanded` flag erased, the toggled tree equals the original: a toggle changes nothing else |
| FolderToggle.ToggleJobOnlyExpanded | components/jenkins-dashboard.tsx:159-171 | the same for one job |
| FolderToggle.TogglePreservesExplicit | components/jenkins-dashboard.tsx:159-171 | a toggle keeps every folder's `expanded` flag and `jobs` list |
| FolderToggle.ToggleJobPreservesExplicit | components/jenkins-dashboard.tsx:159-171 | the same for one job |
| TreeSearch.SearchJob | components/jenkins-dashboard.tsx:197-220 | at most one job is pushed; one is pushed iff the name matches or the folder has matching children; a non-folder is pushed unchanged; a folder comes back expanded with its filtered children |
| TreeSearch.SearchInJobs | components/jenkins-dashboard.tsx:193-224 | the loop returns exactly the list of its pushes, as the search function defines it |
| TreeSearch.FilterForQuery | components/jenkins-dashboard.tsx:188-228 | a whitespace-only query shows `jobs` unchanged; any other query shows the search result |
| TreeSearch.KeptPositionsShape | components/jenkins-dashboard.tsx:196-220 | the kept positions are strictly increasing positions of the input, as many as the result's length, and a position is used exactly when that job is kept |
| TreeSearch.KeptPositionsSameJob | components/jenkins-dashboard.tsx:196-220 | the k-th result is the job at the k-th kept position, changed at most in `expanded` and `jobs` |
| TreeSearch.SearchKeepsOrder | components/jenkins-dashboard.tsx:196-220 | the result is a subsequence of the input in the original relative order, with each job changed at most in `expanded` and `jobs` |
| TreeSearch.SearchSound | components/jenkins-dashboard.tsx:198-219 | at every depth, every kept non-folder matches the query; every kept folder is expanded and either matches or keeps some children |
| TreeSearch.SearchJobSound | components/jenkins-dashboard.tsx:198-219 | the same for one job |
| TreeSearch.SearchNonEmptyIff | components/jenkins-dashboard.tsx:211-219 | the result is non-empty iff some job matches, at the top or below folders the search descends into |
| TreeSearch.SearchJobNonEmptyIff | components/jenkins-dashboard.tsx:211-219 | the same for one job |
| TreeSearch.SearchIdempotent | components/jenkins-dashboard.tsx:193-224 | searching a search result again with the same query changes nothing |
| TreeSearch.SearchJobIdempotent | components/jenkins-dashboard.tsx:197-220 | the same for one job |
| TreeSearch.SearchPreservesExplicit | components/jenkins-dashboard.tsx:200-218 | a search result keeps every folder's `expanded` flag and `jobs` list |
| TreeSearch.SearchJobPreservesExplicit | components/jenkins-dashboard.tsx:200-218 | the same for one job |
| TreeSort.CompareTiesIffSameValue | components/jenkins-dashboard.tsx:290-318 | two jobs compare equal exactly when the sorted column holds the same value, with a missing lastBuild counting as 0 or "" |
| TreeSort.CompareAntisymmetric | components/jenkins-dashboard.tsx:290-318 | swapping the operands flips the sign of the comparison |
| TreeSort.CompareTotal | components/jenkins-dashboard.tsx:290-318 | any two jobs are in order one way or the other |
| TreeSort.CompareTransitive | components/jenkins-dashboard.tsx:290-318 | the comparator's order is transitive |
| TreeSort.DescendingMirrorsAscending | components/jenkins-dashboard.tsx:295-314 | descending puts a before b exactly when ascending puts b before a |
| TreeSort.InsertPermutes | components/jenkins-dashboard.tsx:290 | inserting adds exactly the one job to the multiset |
| TreeSort.StableSortPermutes | components/jenkins-dashboard.tsx:290 | the output is a permutation of the input |
| TreeSort.InsertSorted | components/jenkins-dashboard.tsx:290-318 | inserting into a sorted list keeps it sorted |
| TreeSort.StableSortSorted | components/jenkins-dashboard.tsx:290-318 | the output is sorted by the comparator |
| TreeSort.InsertLast | components/jenkins-dashboard.tsx:290-318 | a job no smaller than every element goes last, after the jobs it ties with |
| TreeSort.StableSortOfSorted | components/jenkins-dashboard.tsx:290-318 | a list already in order is left exactly as it is, so equal jobs keep their relative order |
| TreeSort.Folders | components/jenkins-dashboard.tsx:286 | only folders are kept |
| TreeSort.Regulars | components/jenkins-dashboard.tsx:287 | only non-folders are kept |
| TreeSort.FiltersPartition | components/jenkins-dashboard.tsx:286-287 | the two filters together hold every job of the level exactly once |
| TreeSort.SortFolder | components/jenkins-dashboard.tsx:321-329 | only the folder's `jobs` may change (so `expanded` is untouched), and it has a `jobs` list iff it had one |
| TreeSort.SortedFoldersIsMap | components/jenkins-dashboard.tsx:321-329 | the sorted folders are the folders in their original order, each with its own children sorted |
| TreeSort.SortedRegulars | components/jenkins-dashboard.tsx:290-318 | the sorted non-folders are non-folders in comparator order |
| TreeSort.ArrangedConcat | components/jenkins-dashboard.tsx:332 | arranged folders followed by sorted non-folders form an arranged level |
| TreeSort.SortArranged | components/jenkins-dashboard.tsx:284-333 | at every level, no folder follows a non-folder and the non-folders are in comparator order |
| TreeSort.SortedFoldersArranged | components/jenkins-dashboard.tsx:321-329 | every sorted folder is arranged at every depth below it |
| TreeSort.SortFolderArranged | components/jenkins-dashboard.tsx:322-327 | the same for one folder |
| TreeSort.InsertKeepsSize | components/jenkins-dashboard.tsx:290 | inserting adds exactly the inserted job's nodes |
| TreeSort.StableSortKeepsSize | components/jenkins-dashboard.tsx:290 | sorting keeps the node count |
| TreeSort.FiltersKeepSize | components/jenkins-dashboard.tsx:286-287 | the two filters together keep the node count |
| TreeSort.SortKeepsSize | components/jenkins-dashboard.tsx:284-333 | the sorted tree has as many nodes as the original, at all depths together |
| TreeSort.SortedFoldersKeepSize | components/jenkins-dashboard.tsx:321-329 | sorting inside folders keeps their node count |
| TreeSort.SortFolderKeepsSize | components/jenkins-dashboard.tsx:322-327 | the same for one folder |
| TreeSort.SortLevel | components/jenkins-dashboard.tsx:284-333 | one level keeps its length; its folders are the original folders in order, each with sorted children; its non-folders are a sorted permutation of the original non-folders |
| TreeSort.SortIdempotent | components/jenkins-dashboard.tsx:284-333 | sorting a sorted tree again by the same configuration changes nothing |
| TreeSort.SortedFoldersIdempotent | components/jenkins-dashboard.tsx:321-329 | the same for the folder part of a level |
| TreeSort.SortFolderIdempotent | components/jenkins-dashboard.tsx:322-327 | the same for one folder |
| TreeSort.SortPreservesExplicit | components/jenkins-dashboard.tsx:284-333 | sorting keeps every folder's `expanded` flag and `jobs` list |
| TreeSort.SortedFoldersExplicit | components/jenkins-dashboard.tsx:321-329 | the same for the folder part of a level |
| TreeSort.SortFolderExplicit | components/jenkins-dashboard.tsx:322-327 | the same for one folder |
| TreeSort.NextConfig | components/jenkins-dashboard.tsx:274-281 | the new configuration has the requested key, and is descending exactly when that key was last sorted ascending |
| TreeSort.RepeatedRequestAlternates | components/jenkins-dashboard.tsx:274-281 | requesting the same key again flips the direction; switching to another key starts ascending |
| JobStatus.ColorStatus | components/jenkins-dashboard.tsx:264-271 | never the folder status; success iff "blue"; failure iff "red"; in progress iff the color contains "anime"; disabled iff "disabled"; unstable iff "yellow"; unknown otherwise |
| JobStatus.FolderAwareStatus | components/job-status.tsx:34-43 | the folder status iff the job is a folder, whatever its color; a missing or empty color on a non-folder is unknown |
| JobStatus.StatusMappingsAgree | components/job-status.tsx:36-42 | for a non-folder the card's mapping agrees with the dashboard's, a missing color counting as "" |
| JobStatus.FormatDuration | components/job-status.tsx:55-61 | "no information" iff the duration is 0; otherwise the seconds are below 60 and minutes times 60 plus seconds is the whole number of seconds |
| JobRows.RowFor | components/jenkins-dashboard.tsx:352-397 | the row is at the given level, indented 20 pixels per level; a folder row carries a toggle path of `path ++ [name]` (or `[name]` without a path) and no status; a non-folder carries a status, and build cells iff it has a last build |
| JobRows.RenderJobRows | components/jenkins-dashboard.tsx:348-405 | the loop returns exactly the rows the traversal function defines |
| JobRows.RowLevels | components/jenkins-dashboard.tsx:354-401 | every row is at the starting level or deeper, indented 20 pixels per level |
| JobRows.NodeRowLevels | components/jenkins-dashboard.tsx:354-401 | the same for one job's rows |
| JobRows.RowsArePreOrder | components/jenkins-dashboard.tsx:351-402 | the rows at the starting level are the input list, in order; the rows of the i-th job form one contiguous block that starts with its own row and whose other rows are its visible descendants, all deeper; the blocks follow one another and end with the last row |
| JobRows.RowBlock | components/jenkins-dashboard.tsx:351-402 | the same block property for one job of the list |
| JobRows.NodeRowsStartWithNode | components/jenkins-dashboard.tsx:356-401 | a job's first row is its own, every later row lies deeper, so its own row is the only one at its level |
| JobRows.RowCount | components/jenkins-dashboard.tsx:399-401 | at most one row per node, and exactly one per node when every node with children is an expanded folder |
| JobRows.NodeRowCount | components/jenkins-dashboard.tsx:399-401 | the same for one job |
| JobRows.ToggleTargetsResolve | components/jenkins-dashboard.tsx:367 | on a tree with consistent paths, where a top-level job may leave `path` out as the test data does, every folder row's toggle path extends the parent path and reaches a folder, so clicking it is never a no-op |
| JobRows.NodeToggleTargetsResolve | components/jenkins-dashboard.tsx:367 | the same for one job's rows |
| ClientJobs.NormalizeJobData | components/job-status.tsx:7-16 | the name and lastBuild are copied; `isFolder` is the flag, defaulting to false; the color defaults to "unknown"; a missing `jobs` gives `[]`; a present one is mapped child by child, keeping count and order |
| ClientJobs.NormalizeKeepsSize | components/job-status.tsx:14 | no record is lost or invented at any depth |
| ClientJobs.NormalizeListKeepsSize | components/job-status.tsx:14 | the same for a list of records |
| ClientJobs.NormalisersDisagree | components/job-status.tsx:11-12 | a record with children and no flag is a folder on the server but a job shown as "unknown" on the card, and a missing color is "grey" on the server but "unknown" on the card |
| BuildRoute.Endpoint | app/api/jenkins/build/route.ts:100 | "buildWithParameters" iff there is at least one parameter, "build" otherwise, including when parameters are absent |
| BuildRoute.BuildUrl | app/api/jenkins/build/route.ts:94-101 | the job URL, a "/" only when it does not already end with one, then the endpoint |
| BuildRoute.SchemeCheckIsOnJobUrl | app/api/jenkins/build/route.ts:94-106 | the built URL passes the scheme check iff the job URL starts with "http://" or "https://" |
| BuildRoute.PostStatus | app/api/jenkins/build/route.ts:63-152 | an answer is given without contacting Jenkins exactly when no build request is sent |
| BuildRoute.Post | app/api/jenkins/build/route.ts:53-124 | test mode answers before any credential check; otherwise missing credentials give 500 before any URL is built; a missing job URL gives 500; a URL without http or https scheme gives 400; otherwise the build URL is requested, with a form body iff there are parameters |
| BuildRoute.GetStatus | app/api/jenkins/build/route.ts:14-40 | 400 exactly for a missing job name, 200 otherwise |
| BuildRoute.Get | app/api/jenkins/build/route.ts:4-40 | a missing or empty job name is rejected; test mode answers with the mock list for that name, or `[]` for an unknown name; outside test mode no parameters are returned, with the not-configured answer iff a setting is missing |
| Dashboard.JenkinsDashboard.constructor | components/jenkins-dashboard.tsx:18-28 | the initial state has no jobs, an empty query, no sort and test mode on |
| Dashboard.JenkinsDashboard.RunSearchEffect | components/jenkins-dashboard.tsx:188-228 | the shown list becomes `jobs` for a blank query and the search result otherwise, which is sound for the query; nothing else changes |
| Dashboard.JenkinsDashboard.ShowJobs | components/jenkins-dashboard.tsx:94-95 | `jobs` becomes the received list and the shown list is recomputed by the search effect |
| Dashboard.JenkinsDashboard.ShowTestJobs | components/jenkins-dashboard.tsx:45-52 | `jobs` becomes the test data re-based to `now`, which differs from the test data only in timestamps; test mode is on |
| Dashboard.JenkinsDashboard.LoadData | components/jenkins-dashboard.tsx:31-115 | test mode, a failed request and a body without a `jobs` array all show the re-based test data with test mode on; a received list is shown with the received test-mode flag |
| Dashboard.JenkinsDashboard.ToggleFolder | components/jenkins-dashboard.tsx:153-179 | `jobs` is toggled along the path and changes only in `expanded` flags; the shown list is then rebuilt from `jobs` by the search effect, so with a non-blank query every kept folder is open again; explicit folders stay explicit |
| Dashboard.JenkinsDashboard.SetSearchQuery | components/jenkins-dashboard.tsx:435 | a new query recomputes the shown list from `jobs`; the same query changes nothing |
| Dashboard.JenkinsDashboard.RequestSort | components/jenkins-dashboard.tsx:274-336 | the configuration advances as `NextConfig` says; the shown list is sorted level by level and is then arranged, with the same number of nodes; `jobs` and the query are untouched |

## Left out

- HTTP, `fetch`, response and content-type checks, `NextResponse`, and reading `process.env`: their results are parameters (`Option<string>` settings, a `Fetched` value, the `test` query flag).
- The Basic-auth header built with base64 in both routes is not modelled. It is a foreign library call with no effect on the decisions modelled here.
- The route for a single job (`app/api/jenkins/job/route.ts`) is not part of this model. It only looks up settings and a mock table.
- In `GET /api/jenkins`, the branches that return the server's mock data (test mode, missing settings, a failed request) are not modelled. Only the API URL and the normalisation of a received body are.
- The mock data files are not part of this model. The test data is a parameter of `ShowTestJobs` and `LoadData`.
- `Date.now()` is a parameter `now`. `updateTimestamps` reads the clock once per job, and the model uses one reading for the whole tree.
- The 500 ms delay, the 30-second refresh interval, the mode switch handler, the loading flag, `lastUpdated` and the error message are not modelled. Neither is React's scheduling beyond the setters and the search effect.
- JSX, labels, icons, `formatTime` and `toLocaleString`/`toLocaleTimeString` are not modelled; only the data each table row carries is.
- `console.log` calls are not modelled.
- `localeCompare` is modelled as code-point order, which agrees with a locale collation only on plain ASCII without letter-case ties.
- `toLowerCase` is modelled on ASCII letters only.
- `NameHash` sums Unicode code points, where JavaScript sums UTF-16 code units. The two agree outside the astral planes.
- A raw `jobs` value that is present but not an array, and a `jobUrl` that is not a string, are not modelled.
- TreeSort.CompareAscending: the tie returned when a plain key is missing from either job is not modelled. The table only sorts by `name` and `color`, which every job carries, so that branch never applies.
- TreeSort.SortLevel: the permutation is stated level by level plus the total node count, not as one multiset of the whole tree.
- TreeSort.StableSort: `Array.prototype.sort` is modelled as a stable insertion sort. Its stability is stated through `StableSortOfSorted` and `InsertLast`, not as a property about the positions of equal keys.
- BuildRoute.Get: the mock table is looked up by own keys only. A name such as `"constructor"` that reaches an inherited property of the JavaScript object is not modelled.
- BuildRoute.Post: what happens after the build request is sent is the `SendBuildRequest` outcome. Reading Jenkins' answer, the error text and the success body are not modelled.
- JobStatus.FormatDuration: the result is characterised only for positive durations. A negative duration (not produced by Jenkins) follows the same formula with JavaScript's truncating remainder.
- The `loading` and `error` fields of the dashboard, the `Badge` variants, and the `JobStatus`/`JobList` rendering with its `/api/jobs` request are not modelled. They are presentation only.
