/**
 * `requestSort` / `sortJobs` of the dashboard: at every folder level the
 * folders come first, in their original order and with their own children
 * sorted, followed by the other jobs sorted by the chosen column.
 */
module TreeSort {
  import opened Wrappers
  import opened Strings
  import opened JenkinsTypes

  /** The columns the table header sorts by. */
  datatype SortKey = ByName | ByColor | ByLastBuildTime | ByLastBuildResult | ByDuration

  datatype Direction = Ascending | Descending

  /** The `sortConfig` state: the last requested column and direction. */
  datatype SortConfig = SortConfig(key: SortKey, direction: Direction)

  /** `a.lastBuild?.timestamp || 0` */
  function TimeOf(j: Job): int {
    if j.lastBuild.Some? then j.lastBuild.value.timestamp else 0
  }

  /** `a.lastBuild?.result || ""`: a running build (null result) sorts as "". */
  function ResultOf(j: Job): string {
    if j.lastBuild.Some? && j.lastBuild.value.result.Some? then j.lastBuild.value.result.value else ""
  }

  /** `a.lastBuild?.duration || 0` */
  function DurationOf(j: Job): int {
    if j.lastBuild.Some? then j.lastBuild.value.duration else 0
  }

  /** The value a column compares: a number or a string. */
  datatype SortValue = Number(n: int) | Text(s: string)

  function ValueOf(j: Job, key: SortKey): SortValue {
    match key
    case ByName => Text(j.name)
    case ByColor => Text(j.color)
    case ByLastBuildTime => Number(TimeOf(j))
    case ByLastBuildResult => Text(ResultOf(j))
    case ByDuration => Number(DurationOf(j))
  }

  /**
   * The comparator in ascending direction: a difference for the numeric
   * columns, `localeCompare` (here: code-point order) for the others.
   * `name` and `color` are present on every job, so the tie branch for a
   * missing plain key never applies.
   */
  function CompareAscending(a: Job, b: Job, key: SortKey): int {
    match key
    case ByLastBuildTime => TimeOf(a) - TimeOf(b)
    case ByLastBuildResult => CompareStrings(ResultOf(a), ResultOf(b))
    case ByDuration => DurationOf(a) - DurationOf(b)
    case ByName => CompareStrings(a.name, b.name)
    case ByColor => CompareStrings(a.color, b.color)
  }

  /** The comparator handed to `sort`: the descending direction swaps the operands. */
  function Compare(a: Job, b: Job, cfg: SortConfig): int {
    if cfg.direction == Ascending then CompareAscending(a, b, cfg.key)
    else CompareAscending(b, a, cfg.key)
  }

  /** `a` may precede `b` in the sorted output. */
  predicate InOrder(a: Job, b: Job, cfg: SortConfig) {
    Compare(a, b, cfg) <= 0
  }

  /** Two jobs tie exactly when the compared column holds the same value. */
  lemma CompareTiesIffSameValue(a: Job, b: Job, cfg: SortConfig)
    ensures Compare(a, b, cfg) == 0 <==> ValueOf(a, cfg.key) == ValueOf(b, cfg.key)
  {
    match cfg.key
    case ByName => CompareStringsZeroIffEqual(a.name, b.name); CompareStringsZeroIffEqual(b.name, a.name);
    case ByColor => CompareStringsZeroIffEqual(a.color, b.color); CompareStringsZeroIffEqual(b.color, a.color);
    case ByLastBuildResult =>
      CompareStringsZeroIffEqual(ResultOf(a), ResultOf(b));
      CompareStringsZeroIffEqual(ResultOf(b), ResultOf(a));
    case ByLastBuildTime =>
    case ByDuration =>
  }

  /** Swapping the operands flips the sign of the comparator. */
  lemma CompareAntisymmetric(a: Job, b: Job, cfg: SortConfig)
    ensures Compare(a, b, cfg) < 0 <==> Compare(b, a, cfg) > 0
    ensures Compare(a, b, cfg) == 0 <==> Compare(b, a, cfg) == 0
  {
    match cfg.key
    case ByName => CompareStringsAntisymmetric(a.name, b.name);
    case ByColor => CompareStringsAntisymmetric(a.color, b.color);
    case ByLastBuildResult => CompareStringsAntisymmetric(ResultOf(a), ResultOf(b));
    case ByLastBuildTime =>
    case ByDuration =>
  }

  lemma CompareTotal(a: Job, b: Job, cfg: SortConfig)
    ensures InOrder(a, b, cfg) || InOrder(b, a, cfg)
  {
    CompareAntisymmetric(a, b, cfg);
  }

  lemma CompareTransitive(a: Job, b: Job, c: Job, cfg: SortConfig)
    requires InOrder(a, b, cfg) && InOrder(b, c, cfg)
    ensures InOrder(a, c, cfg)
  {
    var asc := cfg.direction == Ascending;
    match cfg.key
    case ByName =>
      if asc { CompareStringsTransitive(a.name, b.name, c.name); }
      else { CompareStringsTransitive(c.name, b.name, a.name); }
    case ByColor =>
      if asc { CompareStringsTransitive(a.color, b.color, c.color); }
      else { CompareStringsTransitive(c.color, b.color, a.color); }
    case ByLastBuildResult =>
      if asc { CompareStringsTransitive(ResultOf(a), ResultOf(b), ResultOf(c)); }
      else { CompareStringsTransitive(ResultOf(c), ResultOf(b), ResultOf(a)); }
    case ByLastBuildTime =>
    case ByDuration =>
  }

  /** Descending mirrors ascending: strictly before in one is strictly after in the other. */
  lemma DescendingMirrorsAscending(a: Job, b: Job, key: SortKey)
    ensures Compare(a, b, SortConfig(key, Descending)) < 0 <==> Compare(a, b, SortConfig(key, Ascending)) > 0
    ensures InOrder(a, b, SortConfig(key, Descending)) <==> InOrder(b, a, SortConfig(key, Ascending))
  {
    CompareAntisymmetric(a, b, SortConfig(key, Ascending));
  }

  // ---- Sorting one list -------------------------------------------------------

  predicate Sorted(s: seq<Job>, cfg: SortConfig) {
    forall i, j :: 0 <= i < j < |s| ==> InOrder(s[i], s[j], cfg)
  }

  /** Inserts `x` after every element that does not come strictly after it. */
  function Insert(s: seq<Job>, x: Job, cfg: SortConfig): (r: seq<Job>)
    ensures |r| == |s| + 1
  {
    if s == [] || Compare(x, s[0], cfg) < 0 then [x] + s
    else [s[0]] + Insert(s[1..], x, cfg)
  }

  /**
   * `[...regularJobs].sort(comparator)`. ECMAScript requires this sort to be
   * stable; insertion sort from the left is one stable sort, and for a
   * comparator that is a total preorder all stable sorts agree.
   */
  function StableSort(s: seq<Job>, cfg: SortConfig): (r: seq<Job>)
    ensures |r| == |s|
  {
    if s == [] then []
    else Insert(StableSort(s[..|s| - 1], cfg), s[|s| - 1], cfg)
  }

  /** Inserting adds exactly the one job. */
  lemma {:induction false} InsertPermutes(s: seq<Job>, x: Job, cfg: SortConfig)
    ensures multiset(Insert(s, x, cfg)) == multiset(s) + multiset{x}
    decreases |s|
  {
    if s != [] && Compare(x, s[0], cfg) >= 0 {
      InsertPermutes(s[1..], x, cfg);
      assert s == [s[0]] + s[1..];
    }
  }

  /** The sorted list is a permutation of the input. */
  lemma {:induction false} StableSortPermutes(s: seq<Job>, cfg: SortConfig)
    ensures multiset(StableSort(s, cfg)) == multiset(s)
  {
    if s != [] {
      var pre, x := s[..|s| - 1], s[|s| - 1];
      StableSortPermutes(pre, cfg);
      InsertPermutes(StableSort(pre, cfg), x, cfg);
      assert s == pre + [x];
    }
  }

  lemma {:induction false} InsertSorted(s: seq<Job>, x: Job, cfg: SortConfig)
    requires Sorted(s, cfg)
    ensures Sorted(Insert(s, x, cfg), cfg)
    decreases |s|
  {
    if s == [] {
    } else if Compare(x, s[0], cfg) < 0 {
      forall j | 0 <= j < |s| ensures InOrder(x, s[j], cfg) {
        if j > 0 { CompareTransitive(x, s[0], s[j], cfg); }
      }
    } else {
      var t := Insert(s[1..], x, cfg);
      InsertSorted(s[1..], x, cfg);
      InsertPermutes(s[1..], x, cfg);
      CompareAntisymmetric(x, s[0], cfg);
      forall y | y in t ensures InOrder(s[0], y, cfg) {
        assert y in multiset(t);
        if y != x {
          assert y in s[1..];
        }
      }
    }
  }

  /** The sorted list is ordered by the comparator (and, by its contract, a permutation). */
  lemma {:induction false} StableSortSorted(s: seq<Job>, cfg: SortConfig)
    ensures Sorted(StableSort(s, cfg), cfg)
  {
    if s != [] {
      StableSortSorted(s[..|s| - 1], cfg);
      InsertSorted(StableSort(s[..|s| - 1], cfg), s[|s| - 1], cfg);
    }
  }

  /** Inserting an element that no element follows appends it. */
  lemma {:induction false} InsertLast(s: seq<Job>, x: Job, cfg: SortConfig)
    requires forall y :: y in s ==> InOrder(y, x, cfg)
    ensures Insert(s, x, cfg) == s + [x]
    decreases |s|
  {
    if s == [] {
      assert [x] + s == s + [x];
    } else {
      assert s[0] in s;
      CompareAntisymmetric(x, s[0], cfg);
      forall y | y in s[1..] ensures InOrder(y, x, cfg) {
        assert y in s;
      }
      InsertLast(s[1..], x, cfg);
      assert [s[0]] + (s[1..] + [x]) == s + [x];
    }
  }

  /** An already sorted list comes back unchanged: ties keep their order. */
  lemma {:induction false} StableSortOfSorted(s: seq<Job>, cfg: SortConfig)
    requires Sorted(s, cfg)
    ensures StableSort(s, cfg) == s
  {
    if s != [] {
      var n := |s| - 1;
      assert Sorted(s[..n], cfg);
      StableSortOfSorted(s[..n], cfg);
      forall y | y in s[..n] ensures InOrder(y, s[n], cfg) {
        var i :| 0 <= i < n && s[..n][i] == y;
      }
      InsertLast(s[..n], s[n], cfg);
      assert s[..n] + [s[n]] == s;
    }
  }

  // ---- Folders and regular jobs ---------------------------------------------

  /** `jobList.filter((job) => job.isFolder)` */
  function Folders(js: seq<Job>): (r: seq<Job>)
    ensures forall i :: 0 <= i < |r| ==> IsFolder(r[i])
  {
    if js == [] then []
    else Folders(js[..|js| - 1]) + if IsFolder(js[|js| - 1]) then [js[|js| - 1]] else []
  }

  /** `jobList.filter((job) => !job.isFolder)` */
  function Regulars(js: seq<Job>): (r: seq<Job>)
    ensures forall i :: 0 <= i < |r| ==> !IsFolder(r[i])
  {
    if js == [] then []
    else Regulars(js[..|js| - 1]) + if IsFolder(js[|js| - 1]) then [] else [js[|js| - 1]]
  }

  /** The two filters split the list: together they hold every job once. */
  lemma {:induction false} FiltersPartition(js: seq<Job>)
    ensures multiset(Folders(js)) + multiset(Regulars(js)) == multiset(js)
  {
    if js != [] {
      var pre, x := js[..|js| - 1], js[|js| - 1];
      FiltersPartition(pre);
      assert js == pre + [x];
      assert multiset(js) == multiset(pre) + multiset{x};
      if IsFolder(x) {
        assert Folders(js) == Folders(pre) + [x] && Regulars(js) == Regulars(pre) + [];
      } else {
        assert Folders(js) == Folders(pre) + [] && Regulars(js) == Regulars(pre) + [x];
      }
    }
  }

  /** `sortJobs`: sorted folders first, then the sorted regular jobs. */
  function SortJobs(js: seq<Job>, cfg: SortConfig): seq<Job>
    decreases js, 2
  {
    SortedFolders(js, cfg) + StableSort(Regulars(js), cfg)
  }

  /** `folders.map(...)`, fused with the filter so that each folder is visibly smaller than `js`. */
  function SortedFolders(js: seq<Job>, cfg: SortConfig): seq<Job>
    decreases js, 1
  {
    if js == [] then []
    else SortedFolders(js[..|js| - 1], cfg) + if IsFolder(js[|js| - 1]) then [SortFolder(js[|js| - 1], cfg)] else []
  }

  /** A folder with a `jobs` list gets its children sorted; one without is returned as it is. */
  function SortFolder(f: Job, cfg: SortConfig): (g: Job)
    ensures g.(jobs := f.jobs) == f
    ensures g.jobs.Jobs? <==> f.jobs.Jobs?
    decreases f, 0
  {
    match f.jobs
    case NoJobs => f
    case Jobs(k) => f.(jobs := Jobs(SortJobs(k, cfg)))
  }

  /** The fused recursion is the filter followed by the map. */
  lemma {:induction false} SortedFoldersIsMap(js: seq<Job>, cfg: SortConfig)
    ensures |SortedFolders(js, cfg)| == |Folders(js)|
    ensures forall i :: 0 <= i < |Folders(js)| ==> SortedFolders(js, cfg)[i] == SortFolder(Folders(js)[i], cfg)
  {
    if js != [] {
      SortedFoldersIsMap(js[..|js| - 1], cfg);
    }
  }

  // ---- Shape of the result ----------------------------------------------------

  /**
   * A level in the order `sortJobs` leaves it: no folder after a non-folder,
   * the non-folders in comparator order, and every folder's children
   * arranged the same way.
   */
  predicate Arranged(js: seq<Job>, cfg: SortConfig)
    decreases js, 1
  {
    && (forall i, j :: 0 <= i < j < |js| && !IsFolder(js[i]) ==> !IsFolder(js[j]) && InOrder(js[i], js[j], cfg))
    && (forall i :: 0 <= i < |js| ==> NodeArranged(js[i], cfg))
  }

  predicate NodeArranged(j: Job, cfg: SortConfig)
    decreases j, 0
  {
    IsFolder(j) && j.jobs.Jobs? ==> Arranged(j.jobs.items, cfg)
  }

  /** The sorted regular jobs are non-folders, in comparator order. */
  lemma SortedRegulars(js: seq<Job>, cfg: SortConfig)
    ensures forall k :: 0 <= k < |StableSort(Regulars(js), cfg)| ==> !IsFolder(StableSort(Regulars(js), cfg)[k])
    ensures Sorted(StableSort(Regulars(js), cfg), cfg)
  {
    var rs := Regulars(js);
    var r := StableSort(rs, cfg);
    StableSortSorted(rs, cfg);
    StableSortPermutes(rs, cfg);
    forall k | 0 <= k < |r| ensures !IsFolder(r[k]) {
      assert r[k] in multiset(rs);
      var m :| 0 <= m < |rs| && rs[m] == r[k];
    }
  }

  /** Arranged folders followed by sorted non-folders make an arranged level. */
  lemma ArrangedConcat(f: seq<Job>, r: seq<Job>, cfg: SortConfig)
    requires forall i :: 0 <= i < |f| ==> IsFolder(f[i]) && NodeArranged(f[i], cfg)
    requires forall k :: 0 <= k < |r| ==> !IsFolder(r[k])
    requires Sorted(r, cfg)
    ensures Arranged(f + r, cfg)
  {
    var out := f + r;
    forall i, j | 0 <= i < j < |out| && !IsFolder(out[i])
      ensures !IsFolder(out[j]) && InOrder(out[i], out[j], cfg)
    {
      assert i >= |f|;
      assert out[i] == r[i - |f|] && out[j] == r[j - |f|];
    }
    forall i | 0 <= i < |out| ensures NodeArranged(out[i], cfg) {
      if i >= |f| {
        assert out[i] == r[i - |f|];
      }
    }
  }

  lemma {:induction false} SortArranged(js: seq<Job>, cfg: SortConfig)
    ensures Arranged(SortJobs(js, cfg), cfg)
    decreases js, 2
  {
    SortedFoldersArranged(js, cfg);
    SortedRegulars(js, cfg);
    ArrangedConcat(SortedFolders(js, cfg), StableSort(Regulars(js), cfg), cfg);
  }

  lemma {:induction false} SortedFoldersArranged(js: seq<Job>, cfg: SortConfig)
    ensures forall i :: 0 <= i < |SortedFolders(js, cfg)| ==>
              IsFolder(SortedFolders(js, cfg)[i]) && NodeArranged(SortedFolders(js, cfg)[i], cfg)
    decreases js, 1
  {
    if js != [] {
      var n := |js| - 1;
      SortedFoldersArranged(js[..n], cfg);
      if IsFolder(js[n]) {
        SortFolderArranged(js[n], cfg);
      }
    }
  }

  lemma {:induction false} SortFolderArranged(f: Job, cfg: SortConfig)
    ensures NodeArranged(SortFolder(f, cfg), cfg)
    decreases f, 0
  {
    if f.jobs.Jobs? {
      SortArranged(f.jobs.items, cfg);
    }
  }

  // ---- Nothing lost, nothing changed but order ------------------------------

  lemma {:induction false} InsertKeepsSize(s: seq<Job>, x: Job, cfg: SortConfig)
    ensures ListSize(Insert(s, x, cfg)) == ListSize(s) + Size(x)
    decreases |s|
  {
    if s == [] || Compare(x, s[0], cfg) < 0 {
      ListSizeAppend([x], s);
    } else {
      InsertKeepsSize(s[1..], x, cfg);
      ListSizeAppend([s[0]], Insert(s[1..], x, cfg));
    }
  }

  lemma {:induction false} StableSortKeepsSize(s: seq<Job>, cfg: SortConfig)
    ensures ListSize(StableSort(s, cfg)) == ListSize(s)
  {
    if s != [] {
      var pre, x := s[..|s| - 1], s[|s| - 1];
      var t := StableSort(pre, cfg);
      assert StableSort(s, cfg) == Insert(t, x, cfg);
      StableSortKeepsSize(pre, cfg);
      InsertKeepsSize(t, x, cfg);
      assert s == pre + [x];
      ListSizeAppend(pre, [x]);
    }
  }

  lemma {:induction false} FiltersKeepSize(js: seq<Job>)
    ensures ListSize(Folders(js)) + ListSize(Regulars(js)) == ListSize(js)
  {
    if js != [] {
      var n := |js| - 1;
      FiltersKeepSize(js[..n]);
      ListSizeAppend(js[..n], [js[n]]);
      assert js[..n] + [js[n]] == js;
      ListSizeAppend(Folders(js[..n]), if IsFolder(js[n]) then [js[n]] else []);
      ListSizeAppend(Regulars(js[..n]), if IsFolder(js[n]) then [] else [js[n]]);
    }
  }

  /** No node is lost or duplicated at any depth: the sorted tree has as many nodes as the input. */
  lemma {:induction false} SortKeepsSize(js: seq<Job>, cfg: SortConfig)
    ensures ListSize(SortJobs(js, cfg)) == ListSize(js)
    decreases js, 2
  {
    ListSizeAppend(SortedFolders(js, cfg), StableSort(Regulars(js), cfg));
    SortedFoldersKeepSize(js, cfg);
    StableSortKeepsSize(Regulars(js), cfg);
    FiltersKeepSize(js);
  }

  lemma {:induction false} SortedFoldersKeepSize(js: seq<Job>, cfg: SortConfig)
    ensures ListSize(SortedFolders(js, cfg)) == ListSize(Folders(js))
    decreases js, 1
  {
    if js != [] {
      var n := |js| - 1;
      SortedFoldersKeepSize(js[..n], cfg);
      if IsFolder(js[n]) {
        SortFolderKeepsSize(js[n], cfg);
        ListSizeAppend(SortedFolders(js[..n], cfg), [SortFolder(js[n], cfg)]);
        ListSizeAppend(Folders(js[..n]), [js[n]]);
      } else {
        assert SortedFolders(js, cfg) == SortedFolders(js[..n], cfg) + [] == SortedFolders(js[..n], cfg);
        assert Folders(js) == Folders(js[..n]) + [] == Folders(js[..n]);
      }
    }
  }

  lemma {:induction false} SortFolderKeepsSize(f: Job, cfg: SortConfig)
    ensures Size(SortFolder(f, cfg)) == Size(f)
    decreases f, 0
  {
    if f.jobs.Jobs? {
      SortKeepsSize(f.jobs.items, cfg);
    }
  }

  /**
   * What one level of the result holds: the folders of the input, in their
   * order, each changed only in its (sorted) `jobs`; then exactly the input's
   * other jobs, unchanged and reordered.
   */
  lemma SortLevel(js: seq<Job>, cfg: SortConfig)
    ensures |SortJobs(js, cfg)| == |js|
    ensures Folders(SortJobs(js, cfg)) == SortedFolders(js, cfg)
    ensures |Folders(SortJobs(js, cfg))| == |Folders(js)|
    ensures forall i :: 0 <= i < |Folders(js)| ==>
              Folders(SortJobs(js, cfg))[i] == SortFolder(Folders(js)[i], cfg)
    ensures Regulars(SortJobs(js, cfg)) == StableSort(Regulars(js), cfg)
    ensures multiset(Regulars(SortJobs(js, cfg))) == multiset(Regulars(js))
  {
    SortLevelParts(js, cfg);
    SortLevelLength(js, cfg);
    SortedFoldersIsMap(js, cfg);
    StableSortPermutes(Regulars(js), cfg);
  }

  /** The result's folders are the sorted folders and its other jobs the sorted other jobs. */
  lemma SortLevelParts(js: seq<Job>, cfg: SortConfig)
    ensures Folders(SortJobs(js, cfg)) == SortedFolders(js, cfg)
    ensures Regulars(SortJobs(js, cfg)) == StableSort(Regulars(js), cfg)
  {
    var f, r := SortedFolders(js, cfg), StableSort(Regulars(js), cfg);
    SortedFoldersArranged(js, cfg);
    SortedRegulars(js, cfg);
    FoldersAppend(f, r);
    FilterHomogeneous(f);
    FilterHomogeneous(r);
  }

  lemma SortLevelLength(js: seq<Job>, cfg: SortConfig)
    ensures |SortJobs(js, cfg)| == |js|
  {
    SortedFoldersIsMap(js, cfg);
    FiltersLength(js);
  }

  lemma {:induction false} FiltersLength(js: seq<Job>)
    ensures |Folders(js)| + |Regulars(js)| == |js|
  {
    if js != [] {
      FiltersLength(js[..|js| - 1]);
    }
  }

  // ---- Sorting twice ----------------------------------------------------------

  lemma {:induction false} FoldersAppend(a: seq<Job>, b: seq<Job>)
    ensures Folders(a + b) == Folders(a) + Folders(b)
    ensures Regulars(a + b) == Regulars(a) + Regulars(b)
    decreases |b|
  {
    if b == [] {
      assert a + b == a;
    } else {
      var pre, x := b[..|b| - 1], b[|b| - 1];
      var f: seq<Job> := if IsFolder(x) then [x] else [];
      var r: seq<Job> := if IsFolder(x) then [] else [x];
      FoldersAppend(a, pre);
      assert (a + b)[..|a + b| - 1] == a + pre;
      calc {
        Folders(a + b);
        Folders(a + pre) + f;
        Folders(a) + Folders(pre) + f;
        Folders(a) + Folders(b);
      }
      calc {
        Regulars(a + b);
        Regulars(a + pre) + r;
        Regulars(a) + Regulars(pre) + r;
        Regulars(a) + Regulars(b);
      }
    }
  }

  lemma {:induction false} SortedFoldersAppend(a: seq<Job>, b: seq<Job>, cfg: SortConfig)
    ensures SortedFolders(a + b, cfg) == SortedFolders(a, cfg) + SortedFolders(b, cfg)
    decreases |b|
  {
    if b == [] {
      assert a + b == a;
    } else {
      var pre, x := b[..|b| - 1], b[|b| - 1];
      var last := if IsFolder(x) then [SortFolder(x, cfg)] else [];
      SortedFoldersAppend(a, pre, cfg);
      assert (a + b)[..|a + b| - 1] == a + pre;
      calc {
        SortedFolders(a + b, cfg);
        SortedFolders(a + pre, cfg) + last;
        SortedFolders(a, cfg) + SortedFolders(pre, cfg) + last;
        SortedFolders(a, cfg) + SortedFolders(b, cfg);
      }
    }
  }

  /** A list of folders keeps all of them; a list without folders keeps none. */
  lemma {:induction false} FilterHomogeneous(s: seq<Job>)
    ensures (forall i :: 0 <= i < |s| ==> IsFolder(s[i])) ==> Folders(s) == s && Regulars(s) == []
    ensures (forall i :: 0 <= i < |s| ==> !IsFolder(s[i])) ==> Folders(s) == [] && Regulars(s) == s
  {
    if s != [] {
      FilterHomogeneous(s[..|s| - 1]);
      assert s[..|s| - 1] + [s[|s| - 1]] == s;
    }
  }

  /** Sorting again with the same column and direction changes nothing. */
  lemma {:induction false} SortIdempotent(js: seq<Job>, cfg: SortConfig)
    ensures SortJobs(SortJobs(js, cfg), cfg) == SortJobs(js, cfg)
    decreases js, 2
  {
    var f, r := SortedFolders(js, cfg), StableSort(Regulars(js), cfg);
    SortLevel(js, cfg);
    SortedRegulars(js, cfg);
    StableSortOfSorted(r, cfg);
    SortedFoldersAppend(f, r, cfg);
    SortedFoldersOfNonFolders(r, cfg);
    SortedFoldersIdempotent(js, cfg);
    assert SortedFolders(f + r, cfg) == f + [] == f;
  }

  lemma {:induction false} SortedFoldersOfNonFolders(s: seq<Job>, cfg: SortConfig)
    requires forall i :: 0 <= i < |s| ==> !IsFolder(s[i])
    ensures SortedFolders(s, cfg) == []
  {
    if s != [] {
      SortedFoldersOfNonFolders(s[..|s| - 1], cfg);
    }
  }

  lemma {:induction false} SortedFoldersIdempotent(js: seq<Job>, cfg: SortConfig)
    ensures SortedFolders(SortedFolders(js, cfg), cfg) == SortedFolders(js, cfg)
    decreases js, 1
  {
    if js != [] {
      var n := |js| - 1;
      SortedFoldersIdempotent(js[..n], cfg);
      if IsFolder(js[n]) {
        var g := SortFolder(js[n], cfg);
        SortFolderIdempotent(js[n], cfg);
        SortedFoldersAppend(SortedFolders(js[..n], cfg), [g], cfg);
        assert [g][..0] == [];
        assert SortedFolders([g], cfg) == [] + [SortFolder(g, cfg)];
      } else {
        assert SortedFolders(js, cfg) == SortedFolders(js[..n], cfg) + [] == SortedFolders(js[..n], cfg);
      }
    }
  }

  lemma {:induction false} SortFolderIdempotent(f: Job, cfg: SortConfig)
    ensures SortFolder(SortFolder(f, cfg), cfg) == SortFolder(f, cfg)
    decreases f, 0
  {
    if f.jobs.Jobs? {
      SortIdempotent(f.jobs.items, cfg);
    }
  }

  // ---- Choosing the direction -------------------------------------------------

  /** `requestSort`: descending only when the same column is currently ascending. */
  function NextConfig(current: Option<SortConfig>, key: SortKey): (c: SortConfig)
    ensures c.key == key
    ensures c.direction == Descending <==> current == Some(SortConfig(key, Ascending))
  {
    if current.Some? && current.value.key == key && current.value.direction == Ascending then
      SortConfig(key, Descending)
    else SortConfig(key, Ascending)
  }

  /** Requesting the same column again flips the direction; another column starts ascending. */
  lemma RepeatedRequestAlternates(current: Option<SortConfig>, key: SortKey, other: SortKey)
    ensures NextConfig(Some(NextConfig(current, key)), key).direction != NextConfig(current, key).direction
    ensures other != key ==> NextConfig(Some(NextConfig(current, key)), other).direction == Ascending
  {
  }

  // ---- Folders stay explicit -------------------------------------------------

  lemma {:induction false} RegularsExplicit(js: seq<Job>)
    requires FoldersExplicit(js)
    ensures FoldersExplicit(Regulars(js))
  {
    if js != [] {
      var n := |js| - 1;
      assert FoldersExplicit(js[..n]) by {
        assert forall i :: 0 <= i < n ==> js[..n][i] == js[i];
      }
      RegularsExplicit(js[..n]);
      assert NodeExplicit(js[n]);
    }
  }

  lemma StableSortExplicit(s: seq<Job>, cfg: SortConfig)
    requires FoldersExplicit(s)
    ensures FoldersExplicit(StableSort(s, cfg))
  {
    var r := StableSort(s, cfg);
    StableSortPermutes(s, cfg);
    forall i | 0 <= i < |r| ensures NodeExplicit(r[i]) {
      assert r[i] in multiset(r);
      assert r[i] in s;
    }
  }

  /** Sorting keeps every folder's `expanded` flag and `jobs` list, at every depth. */
  lemma {:induction false} SortPreservesExplicit(js: seq<Job>, cfg: SortConfig)
    requires FoldersExplicit(js)
    ensures FoldersExplicit(SortJobs(js, cfg))
    decreases js, 2
  {
    SortedFoldersExplicit(js, cfg);
    RegularsExplicit(js);
    StableSortExplicit(Regulars(js), cfg);
    var a, b := SortedFolders(js, cfg), StableSort(Regulars(js), cfg);
    FoldersExplicitConcat(a, b);
  }

  lemma {:induction false} SortedFoldersExplicit(js: seq<Job>, cfg: SortConfig)
    requires FoldersExplicit(js)
    ensures FoldersExplicit(SortedFolders(js, cfg))
    decreases js, 1
  {
    if js != [] {
      var n := |js| - 1;
      assert FoldersExplicit(js[..n]) by {
        assert forall i :: 0 <= i < n ==> js[..n][i] == js[i];
      }
      SortedFoldersExplicit(js[..n], cfg);
      assert NodeExplicit(js[n]);
      SortFolderExplicit(js[n], cfg);
      var a := SortedFolders(js[..n], cfg);
      var b := if IsFolder(js[n]) then [SortFolder(js[n], cfg)] else [];
      FoldersExplicitConcat(a, b);
    }
  }

  lemma {:induction false} SortFolderExplicit(f: Job, cfg: SortConfig)
    requires NodeExplicit(f)
    ensures NodeExplicit(SortFolder(f, cfg))
    decreases f, 0
  {
    if f.jobs.Jobs? {
      SortPreservesExplicit(f.jobs.items, cfg);
    }
  }
}
