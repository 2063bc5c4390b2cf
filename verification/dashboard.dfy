/**
 * The state of the `JenkinsDashboard` component and the handlers that
 * change it: loading a job tree, toggling a folder, typing a search query
 * and requesting a sort. Each React setter becomes an assignment to a
 * field; the search effect, which React re-runs whenever `jobs` or
 * `searchQuery` changes, is the method `RunSearchEffect`, called at the end
 * of every handler that changes one of them.
 */
module Dashboard {
  import opened Wrappers
  import opened Strings
  import opened JenkinsTypes
  import opened Timestamps
  import opened FolderToggle
  import opened TreeSearch
  import opened TreeSort

  /** What the `/api/jenkins?real=true` request yields: nothing usable, or the parsed body. */
  datatype Fetched =
    | FetchFailed
    | Received(testMode: bool, jobs: Option<seq<Job>>)

  class JenkinsDashboard {
    var jobs: seq<Job>
    var filteredJobs: seq<Job>
    var searchQuery: string
    var sortConfig: Option<SortConfig>
    var isTestMode: bool

    /** Both lists keep every folder's `expanded` flag and `jobs` list. */
    ghost predicate Valid()
      reads this
    {
      FoldersExplicit(jobs) && FoldersExplicit(filteredJobs)
    }

    /** The initial state: no jobs, an empty query, no sort, test mode on. */
    constructor()
      ensures jobs == [] && filteredJobs == [] && searchQuery == "" && sortConfig == None && isTestMode
      ensures Valid()
    {
      jobs := [];
      filteredJobs := [];
      searchQuery := "";
      sortConfig := None;
      isTestMode := true;
    }

    /** The search effect: the whole list for a blank query, otherwise the search result. */
    method RunSearchEffect()
      modifies this
      ensures filteredJobs == FilterForQuery(jobs, searchQuery)
      ensures !IsBlank(searchQuery) ==> SoundList(filteredJobs, searchQuery)
      ensures jobs == old(jobs) && searchQuery == old(searchQuery)
      ensures sortConfig == old(sortConfig) && isTestMode == old(isTestMode)
      ensures FoldersExplicit(jobs) ==> Valid()
    {
      TrimEmptyIffBlank(searchQuery);
      if Trim(searchQuery) == "" {
        filteredJobs := jobs;
      } else {
        filteredJobs := SearchInJobs(jobs, searchQuery);
        SearchSound(jobs, searchQuery);
        if FoldersExplicit(jobs) {
          SearchPreservesExplicit(jobs, searchQuery);
        }
      }
    }

    /** `setJobs(list)` and `setFilteredJobs(list)`, after which the search effect runs. */
    method ShowJobs(list: seq<Job>)
      modifies this
      ensures jobs == list
      ensures filteredJobs == FilterForQuery(list, searchQuery)
      ensures searchQuery == old(searchQuery) && sortConfig == old(sortConfig) && isTestMode == old(isTestMode)
      ensures FoldersExplicit(list) ==> Valid()
    {
      jobs := list;
      filteredJobs := list;
      RunSearchEffect();
    }

    /** The test data re-based to `now`, shown as by `ShowJobs`, with test mode on. */
    method ShowTestJobs(mock: seq<Job>, now: int)
      modifies this
      ensures jobs == UpdateTimestamps(mock, now)
      ensures EraseTimestamps(jobs) == EraseTimestamps(mock)
      ensures filteredJobs == FilterForQuery(jobs, searchQuery)
      ensures isTestMode
      ensures searchQuery == old(searchQuery) && sortConfig == old(sortConfig)
      ensures FoldersExplicit(mock) ==> Valid()
      ensures FoldersExplicit(jobs) ==> Valid()
    {
      var updated := UpdateTimestamps(mock, now);
      UpdateOnlyTimestamps(mock, now);
      if FoldersExplicit(mock) {
        UpdatePreservesExplicit(mock, now);
      }
      ShowJobs(updated);
      isTestMode := true;
    }

    /**
     * `loadData`: test mode shows the re-based test data; otherwise the
     * fetched list is shown, and a failed request or a body without a
     * `jobs` array falls back to the test data.
     */
    method LoadData(testMode: bool, fetched: Fetched, mock: seq<Job>, now: int)
      modifies this
      ensures testMode || fetched.FetchFailed? || fetched.jobs.None? ==>
                jobs == UpdateTimestamps(mock, now) && isTestMode
      ensures !testMode && fetched.Received? && fetched.jobs.Some? ==>
                jobs == fetched.jobs.value && isTestMode == fetched.testMode
      ensures filteredJobs == FilterForQuery(jobs, searchQuery)
      ensures searchQuery == old(searchQuery) && sortConfig == old(sortConfig)
      ensures FoldersExplicit(jobs) ==> Valid()
      ensures (testMode || fetched.FetchFailed? || fetched.jobs.None?) && FoldersExplicit(mock) ==> Valid()
    {
      if testMode {
        ShowTestJobs(mock, now);
      } else {
        match fetched
        case FetchFailed =>
          ShowTestJobs(mock, now);
        case Received(receivedTestMode, list) =>
          isTestMode := receivedTestMode;
          if list.None? {
            ShowTestJobs(mock, now);
          } else {
            ShowJobs(list.value);
          }
      }
    }

    /**
     * `toggleFolder`: both lists are toggled along `path`; since `jobs`
     * changed, the search effect then recomputes the shown list from it.
     */
    method ToggleFolder(path: seq<string>)
      modifies this
      ensures jobs == UpdateFolderState(old(jobs), path, 0)
      ensures old(Valid()) ==> EraseAllExpanded(jobs) == EraseAllExpanded(old(jobs))
      ensures filteredJobs == FilterForQuery(jobs, searchQuery)
      ensures !IsBlank(searchQuery) ==> SoundList(filteredJobs, searchQuery)
      ensures searchQuery == old(searchQuery) && sortConfig == old(sortConfig) && isTestMode == old(isTestMode)
      ensures old(Valid()) ==> Valid()
    {
      if Valid() {
        ToggleOnlyExpanded(jobs, path, 0);
        TogglePreservesExplicit(jobs, path, 0);
      }
      jobs := UpdateFolderState(jobs, path, 0);
      filteredJobs := UpdateFolderState(filteredJobs, path, 0);
      RunSearchEffect();
    }

    /** `setSearchQuery`: a new query re-runs the search effect; the same one changes nothing. */
    method SetSearchQuery(q: string)
      modifies this
      ensures searchQuery == q
      ensures q != old(searchQuery) ==> filteredJobs == FilterForQuery(jobs, q)
      ensures q == old(searchQuery) ==> filteredJobs == old(filteredJobs)
      ensures jobs == old(jobs) && sortConfig == old(sortConfig) && isTestMode == old(isTestMode)
      ensures old(Valid()) ==> Valid()
    {
      if q != searchQuery {
        searchQuery := q;
        RunSearchEffect();
      }
    }

    /**
     * `requestSort`: the direction flips on a repeated key, and the shown
     * list is sorted level by level, folders first. `jobs` and the query
     * are unchanged, so the search effect does not run.
     */
    method RequestSort(key: SortKey)
      modifies this
      ensures sortConfig == Some(NextConfig(old(sortConfig), key))
      ensures filteredJobs == SortJobs(old(filteredJobs), sortConfig.value)
      ensures Arranged(filteredJobs, sortConfig.value)
      ensures ListSize(filteredJobs) == ListSize(old(filteredJobs))
      ensures jobs == old(jobs) && searchQuery == old(searchQuery) && isTestMode == old(isTestMode)
      ensures old(Valid()) ==> Valid()
    {
      var cfg := NextConfig(sortConfig, key);
      sortConfig := Some(cfg);
      SortArranged(filteredJobs, cfg);
      SortKeepsSize(filteredJobs, cfg);
      if FoldersExplicit(filteredJobs) {
        SortPreservesExplicit(filteredJobs, cfg);
      }
      filteredJobs := SortJobs(filteredJobs, cfg);
    }
  }
}
