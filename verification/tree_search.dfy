/**
 * The dashboard's search: `searchInJobs` keeps the jobs whose name contains
 * the query (ignoring letter case) and the folders below which such a job
 * is found, opening every folder it keeps.
 */
module TreeSearch {
  import opened Wrappers
  import opened Strings
  import opened JenkinsTypes

  /** `job.name.toLowerCase().includes(searchQuery.toLowerCase())` */
  predicate NameMatches(name: string, query: string) {
    Contains(Lower(name), Lower(query))
  }

  /** `job.isFolder && job.jobs`: a folder the search descends into. */
  predicate SearchableFolder(j: Job) {
    IsFolder(j) && j.jobs.Jobs?
  }

  /** What one pass of the loop in `searchInJobs` pushes for `j`: nothing, or one job. */
  function SearchJob(j: Job, q: string): (r: seq<Job>)
    ensures |r| <= 1
    ensures |r| == 1 <==> NameMatches(j.name, q) || (SearchableFolder(j) && SearchJobs(j.jobs.items, q) != [])
    ensures |r| == 1 && !SearchableFolder(j) ==> r[0] == j
    ensures |r| == 1 && SearchableFolder(j) ==>
              r[0] == j.(expanded := Some(true), jobs := Jobs(SearchJobs(j.jobs.items, q)))
    decreases j, 0
  {
    if NameMatches(j.name, q) then
      if SearchableFolder(j) then [j.(expanded := Some(true), jobs := Jobs(SearchJobs(j.jobs.items, q)))]
      else [j]
    else if SearchableFolder(j) then
      var matched := SearchJobs(j.jobs.items, q);
      if |matched| > 0 then [j.(expanded := Some(true), jobs := Jobs(matched))] else []
    else []
  }

  /** The list `searchInJobs` returns: the pushes of its loop, in order. */
  function SearchJobs(js: seq<Job>, q: string): seq<Job>
    decreases js, 1
  {
    if js == [] then [] else SearchJobs(js[..|js| - 1], q) + SearchJob(js[|js| - 1], q)
  }

  /** `searchInJobs`: a loop that pushes matches into `result`, recursing into folders. */
  method SearchInJobs(jobList: seq<Job>, q: string) returns (result: seq<Job>)
    ensures result == SearchJobs(jobList, q)
    decreases ListSize(jobList)
  {
    result := [];
    for i := 0 to |jobList|
      invariant result == SearchJobs(jobList[..i], q)
    {
      var job := jobList[i];
      ElementSmaller(jobList, i);
      if NameMatches(job.name, q) {
        if IsFolder(job) && job.jobs.Jobs? {
          var children := SearchInJobs(job.jobs.items, q);
          result := result + [job.(expanded := Some(true), jobs := Jobs(children))];
        } else {
          result := result + [job];
        }
      } else if IsFolder(job) && job.jobs.Jobs? {
        var matchedChildren := SearchInJobs(job.jobs.items, q);
        if |matchedChildren| > 0 {
          result := result + [job.(expanded := Some(true), jobs := Jobs(matchedChildren))];
        }
      }
      assert jobList[..i + 1][..i] == jobList[..i];
    }
    assert jobList[..|jobList|] == jobList;
  }

  /** The search effect: a blank query (`trim() === ""`) shows the list unchanged. */
  function FilterForQuery(jobs: seq<Job>, q: string): (r: seq<Job>)
    ensures IsBlank(q) ==> r == jobs
    ensures !IsBlank(q) ==> r == SearchJobs(jobs, q)
  {
    TrimEmptyIffBlank(q);
    if Trim(q) == "" then jobs else SearchJobs(jobs, q)
  }

  // ---- Order: the result is a subsequence of the input ----------------------

  /** `a` is `b` with at most `expanded` and `jobs` replaced. */
  predicate SameJob(a: Job, b: Job) {
    a.(expanded := b.expanded, jobs := b.jobs) == b
  }

  /** The positions in `js` of the jobs the search keeps. */
  function KeptPositions(js: seq<Job>, q: string): seq<nat>
  {
    if js == [] then []
    else KeptPositions(js[..|js| - 1], q) + if SearchJob(js[|js| - 1], q) != [] then [|js| - 1] else []
  }

  lemma {:induction false} KeptPositionsShape(js: seq<Job>, q: string)
    ensures |KeptPositions(js, q)| == |SearchJobs(js, q)|
    ensures forall k :: 0 <= k < |KeptPositions(js, q)| ==> KeptPositions(js, q)[k] < |js|
    ensures forall k, l :: 0 <= k < l < |KeptPositions(js, q)| ==> KeptPositions(js, q)[k] < KeptPositions(js, q)[l]
    ensures forall i :: 0 <= i < |js| ==> (i in KeptPositions(js, q) <==> SearchJob(js[i], q) != [])
  {
    if js != [] {
      var n := |js| - 1;
      var pre := js[..n];
      KeptPositionsShape(pre, q);
      var op := KeptPositions(pre, q);
      var tail: seq<nat> := if SearchJob(js[n], q) != [] then [n] else [];
      assert KeptPositions(js, q) == op + tail;
      assert forall i :: 0 <= i < n ==> js[i] == pre[i];
    }
  }

  lemma {:induction false} KeptPositionsSameJob(js: seq<Job>, q: string)
    requires |KeptPositions(js, q)| == |SearchJobs(js, q)|
    requires forall k :: 0 <= k < |KeptPositions(js, q)| ==> KeptPositions(js, q)[k] < |js|
    ensures forall k :: 0 <= k < |KeptPositions(js, q)| ==> SameJob(SearchJobs(js, q)[k], js[KeptPositions(js, q)[k]])
  {
    if js != [] {
      var n := |js| - 1;
      var pre := js[..n];
      KeptPositionsShape(pre, q);
      KeptPositionsSameJob(pre, q);
      var op, rp := KeptPositions(pre, q), SearchJobs(pre, q);
      var o, r := KeptPositions(js, q), SearchJobs(js, q);
      forall k | 0 <= k < |o| ensures SameJob(r[k], js[o[k]]) {
        if k < |op| {
          assert r[k] == rp[k] && o[k] == op[k];
          assert js[op[k]] == pre[op[k]];
        } else {
          assert r[k] == SearchJob(js[n], q)[0] && o[k] == n;
        }
      }
    }
  }

  /**
   * The search keeps the original relative order: the k-th job of the result
   * is the job at a strictly increasing position of the input, changed at
   * most in `expanded` and `jobs`, and a position is used exactly when that
   * job is kept.
   */
  lemma {:induction false} SearchKeepsOrder(js: seq<Job>, q: string)
    ensures |KeptPositions(js, q)| == |SearchJobs(js, q)|
    ensures forall k :: 0 <= k < |KeptPositions(js, q)| ==> KeptPositions(js, q)[k] < |js|
    ensures forall k, l :: 0 <= k < l < |KeptPositions(js, q)| ==> KeptPositions(js, q)[k] < KeptPositions(js, q)[l]
    ensures forall k :: 0 <= k < |KeptPositions(js, q)| ==> SameJob(SearchJobs(js, q)[k], js[KeptPositions(js, q)[k]])
    ensures forall i :: 0 <= i < |js| ==> (i in KeptPositions(js, q) <==> SearchJob(js[i], q) != [])
  {
    KeptPositionsShape(js, q);
    KeptPositionsSameJob(js, q);
  }

  // ---- Soundness -------------------------------------------------------------

  /** What every job of a search result satisfies, at every depth. */
  predicate SoundList(rs: seq<Job>, q: string)
    decreases rs, 1
  {
    forall i :: 0 <= i < |rs| ==> SoundJob(rs[i], q)
  }

  /**
   * A kept folder is open, and either matches or keeps some children, which
   * are themselves sound; any other kept job matches the query.
   */
  predicate SoundJob(r: Job, q: string)
    decreases r, 0
  {
    if SearchableFolder(r) then
      && r.expanded == Some(true)
      && (NameMatches(r.name, q) || r.jobs.items != [])
      && SoundList(r.jobs.items, q)
    else NameMatches(r.name, q)
  }

  lemma {:induction false} SearchSound(js: seq<Job>, q: string)
    ensures SoundList(SearchJobs(js, q), q)
    decreases js, 1
  {
    if js != [] {
      var n := |js| - 1;
      SearchSound(js[..n], q);
      SearchJobSound(js[n], q);
      var a, b := SearchJobs(js[..n], q), SearchJob(js[n], q);
      assert forall i :: 0 <= i < |a + b| ==> (a + b)[i] == if i < |a| then a[i] else b[i - |a|];
    }
  }

  lemma {:induction false} SearchJobSound(j: Job, q: string)
    ensures SoundList(SearchJob(j, q), q)
    decreases j, 0
  {
    if SearchableFolder(j) {
      SearchSound(j.jobs.items, q);
    }
  }

  // ---- Completeness ----------------------------------------------------------

  /** Some job in `js` matches, or sits below folders the search descends into. */
  predicate AnyMatch(js: seq<Job>, q: string)
    decreases js, 1
  {
    exists i :: 0 <= i < |js| && JobOrDescendantMatches(js[i], q)
  }

  predicate JobOrDescendantMatches(j: Job, q: string)
    decreases j, 0
  {
    NameMatches(j.name, q) || (SearchableFolder(j) && AnyMatch(j.jobs.items, q))
  }

  /** The search result is non-empty exactly when some job reachable through folders matches. */
  lemma {:induction false} SearchNonEmptyIff(js: seq<Job>, q: string)
    ensures SearchJobs(js, q) != [] <==> AnyMatch(js, q)
    decreases js, 1
  {
    if js != [] {
      var n := |js| - 1;
      var pre := js[..n];
      SearchNonEmptyIff(pre, q);
      SearchJobNonEmptyIff(js[n], q);
      assert forall i :: 0 <= i < n ==> js[i] == pre[i];
      if AnyMatch(pre, q) {
        var i :| 0 <= i < n && JobOrDescendantMatches(pre[i], q);
        assert JobOrDescendantMatches(js[i], q);
      }
      if AnyMatch(js, q) {
        var i :| 0 <= i < |js| && JobOrDescendantMatches(js[i], q);
        if i < n {
          assert JobOrDescendantMatches(pre[i], q);
        }
      }
    }
  }

  lemma {:induction false} SearchJobNonEmptyIff(j: Job, q: string)
    ensures SearchJob(j, q) != [] <==> JobOrDescendantMatches(j, q)
    decreases j, 0
  {
    if SearchableFolder(j) {
      SearchNonEmptyIff(j.jobs.items, q);
    }
  }

  // ---- Idempotence -----------------------------------------------------------

  lemma {:induction false} SearchJobsAppend(a: seq<Job>, b: seq<Job>, q: string)
    ensures SearchJobs(a + b, q) == SearchJobs(a, q) + SearchJobs(b, q)
    decreases |b|
  {
    if b == [] {
      assert a + b == a;
    } else {
      var pre, x := b[..|b| - 1], b[|b| - 1];
      SearchJobsAppend(a, pre, q);
      assert (a + b)[..|a + b| - 1] == a + pre;
      calc {
        SearchJobs(a + b, q);
        SearchJobs(a + pre, q) + SearchJob(x, q);
        SearchJobs(a, q) + SearchJobs(pre, q) + SearchJob(x, q);
        SearchJobs(a, q) + SearchJobs(b, q);
      }
    }
  }

  /** Searching a search result again with the same query changes nothing. */
  lemma {:induction false} SearchIdempotent(js: seq<Job>, q: string)
    ensures SearchJobs(SearchJobs(js, q), q) == SearchJobs(js, q)
    decreases js, 1
  {
    if js != [] {
      var n := |js| - 1;
      SearchIdempotent(js[..n], q);
      SearchJobIdempotent(js[n], q);
      SearchJobsAppend(SearchJobs(js[..n], q), SearchJob(js[n], q), q);
    }
  }

  lemma {:induction false} SearchJobIdempotent(j: Job, q: string)
    ensures SearchJobs(SearchJob(j, q), q) == SearchJob(j, q)
    decreases j, 0
  {
    var r := SearchJob(j, q);
    if r != [] {
      assert r[..0] == [];
      if SearchableFolder(j) {
        SearchIdempotent(j.jobs.items, q);
      }
      assert SearchJob(r[0], q) == r;
    }
  }

  // ---- Folders stay explicit -------------------------------------------------

  /** A search result keeps every folder's `expanded` flag and `jobs` list, at every depth. */
  lemma {:induction false} SearchPreservesExplicit(js: seq<Job>, q: string)
    requires FoldersExplicit(js)
    ensures FoldersExplicit(SearchJobs(js, q))
    decreases js, 1
  {
    if js != [] {
      var n := |js| - 1;
      assert FoldersExplicit(js[..n]) by {
        assert forall i :: 0 <= i < n ==> js[..n][i] == js[i];
      }
      SearchPreservesExplicit(js[..n], q);
      assert NodeExplicit(js[n]);
      SearchJobPreservesExplicit(js[n], q);
      FoldersExplicitConcat(SearchJobs(js[..n], q), SearchJob(js[n], q));
    }
  }

  lemma {:induction false} SearchJobPreservesExplicit(j: Job, q: string)
    requires NodeExplicit(j)
    ensures FoldersExplicit(SearchJob(j, q))
    decreases j, 0
  {
    if SearchableFolder(j) {
      SearchPreservesExplicit(j.jobs.items, q);
    }
  }
}
