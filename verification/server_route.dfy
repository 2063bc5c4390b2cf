/**
 * The server side of the job listing (`GET /api/jenkins`): the Jenkins API
 * URL it requests, and `processJenkinsJobs`, which turns the raw records of
 * the Jenkins JSON API into the dashboard's job tree.
 */
module ServerRoute {
  import opened Wrappers
  import opened Strings
  import opened JenkinsTypes

  /** The query suffix that asks for three levels of jobs below the `projects` folder. */
  const TreeQuery: string :=
    "job/projects/api/json?tree=jobs[name,url,color,lastBuild[number,timestamp,result,duration],"
    + "jobs[name,url,color,lastBuild[number,timestamp,result,duration],"
    + "jobs[name,url,color,lastBuild[number,timestamp,result,duration]]]]"

  /** The API URL requested for a configured Jenkins base URL: one "/" separates base and query. */
  function ApiUrl(jenkinsUrl: string): (u: string)
    ensures EndsWith(jenkinsUrl, "/") ==> u == jenkinsUrl + TreeQuery
    ensures !EndsWith(jenkinsUrl, "/") ==> u == jenkinsUrl + "/" + TreeQuery
  {
    WithTrailingSlash(jenkinsUrl) + TreeQuery
  }

  /** `job.jobs && Array.isArray(job.jobs) && job.jobs.length > 0` */
  predicate HasChildRecords(r: RawJob) {
    r.jobs.RawList? && |r.jobs.items| > 0
  }

  /** One record, converted; `parentPath` names its ancestors. */
  function ProcessJob(r: RawJob, parentPath: seq<string>): (j: Job)
    ensures j.name == r.name && j.url == r.url
    ensures j.color == OrDefault(r.color, "grey")
    ensures j.path == Some(parentPath)
    ensures j.lastBuild == r.lastBuild
    ensures IsFolder(j) <==> HasChildRecords(r)
    ensures IsFolder(j) ==> j.expanded == Some(true) && j.jobs.Jobs? && |j.jobs.items| == |r.jobs.items|
    ensures !IsFolder(j) ==> j.isFolder == None && j.expanded == None && j.jobs == NoJobs
  {
    var folder := HasChildRecords(r);
    Job(
      r.name,
      r.url,
      OrDefault(r.color, "grey"),
      r.lastBuild,
      if folder then Some(true) else None,
      if folder then Jobs(ProcessJenkinsJobs(r.jobs.items, parentPath + [r.name])) else NoJobs,
      Some(parentPath),
      if folder then Some(true) else None)
  }

  /** `processJenkinsJobs`: a map over the records, in order. */
  function ProcessJenkinsJobs(raws: seq<RawJob>, parentPath: seq<string>): (js: seq<Job>)
    ensures |js| == |raws|
    ensures forall i :: 0 <= i < |raws| ==> js[i] == ProcessJob(raws[i], parentPath)
  {
    seq(|raws|, i requires 0 <= i < |raws| => ProcessJob(raws[i], parentPath))
  }

  /** `processJenkinsJobs(data.jobs || [], [])`: a response without `jobs` gives an empty tree. */
  function NormalizeResponse(dataJobs: Option<seq<RawJob>>): (js: seq<Job>)
    ensures dataJobs == None ==> js == []
    ensures dataJobs.Some? ==> |js| == |dataJobs.value|
  {
    ProcessJenkinsJobs(dataJobs.GetOr([]), [])
  }

  /** Path invariant: every produced node's path lists its ancestors below `parentPath`. */
  lemma {:induction false} ProcessedPaths(raws: seq<RawJob>, parentPath: seq<string>)
    ensures PathsFrom(ProcessJenkinsJobs(raws, parentPath), parentPath)
    decreases raws, 1
  {
    var js := ProcessJenkinsJobs(raws, parentPath);
    forall i | 0 <= i < |js| ensures NodePathsFrom(js[i], parentPath) {
      ProcessedNodePaths(raws[i], parentPath);
    }
  }

  lemma {:induction false} ProcessedNodePaths(r: RawJob, parentPath: seq<string>)
    ensures NodePathsFrom(ProcessJob(r, parentPath), parentPath)
    decreases r, 0
  {
    if HasChildRecords(r) {
      ProcessedPaths(r.jobs.items, parentPath + [r.name]);
    }
  }

  /**
   * In a normalised response, the node at positions `ix` (depth |ix| - 1) has
   * a path of that length holding the names of the nodes above it.
   */
  lemma NormalizedPathIsAncestry(dataJobs: Option<seq<RawJob>>, ix: seq<nat>, n: Job)
    requires NodeAt(NormalizeResponse(dataJobs), ix) == Some(n)
    ensures n.path == Some(AncestorNames(NormalizeResponse(dataJobs), ix))
    ensures |n.path.value| == |ix| - 1
  {
    ProcessedPaths(dataJobs.GetOr([]), []);
    PathIsAncestorNames(NormalizeResponse(dataJobs), [], ix, n);
    assert [] + AncestorNames(NormalizeResponse(dataJobs), ix) == AncestorNames(NormalizeResponse(dataJobs), ix);
  }

  /** Every produced folder states `expanded` and has a `jobs` list. */
  lemma {:induction false} ProcessedFoldersExplicit(raws: seq<RawJob>, parentPath: seq<string>)
    ensures FoldersExplicit(ProcessJenkinsJobs(raws, parentPath))
    decreases raws, 1
  {
    var js := ProcessJenkinsJobs(raws, parentPath);
    forall i | 0 <= i < |js| ensures NodeExplicit(js[i]) {
      ProcessedNodeExplicit(raws[i], parentPath);
    }
  }

  lemma {:induction false} ProcessedNodeExplicit(r: RawJob, parentPath: seq<string>)
    ensures NodeExplicit(ProcessJob(r, parentPath))
    decreases r, 0
  {
    if HasChildRecords(r) {
      ProcessedFoldersExplicit(r.jobs.items, parentPath + [r.name]);
    }
  }

  /** Only folders carry children, and every folder is produced expanded. */
  lemma {:induction false} ProcessedFullyOpen(raws: seq<RawJob>, parentPath: seq<string>)
    ensures FullyOpen(ProcessJenkinsJobs(raws, parentPath))
    decreases raws, 1
  {
    var js := ProcessJenkinsJobs(raws, parentPath);
    forall i | 0 <= i < |js| ensures NodeOpen(js[i]) {
      ProcessedNodeOpen(raws[i], parentPath);
    }
  }

  lemma {:induction false} ProcessedNodeOpen(r: RawJob, parentPath: seq<string>)
    ensures NodeOpen(ProcessJob(r, parentPath))
    decreases r, 0
  {
    if HasChildRecords(r) {
      ProcessedFullyOpen(r.jobs.items, parentPath + [r.name]);
    }
  }

  /** No record is lost or invented at any depth: the tree has as many nodes as the records. */
  lemma {:induction false} ProcessedSize(raws: seq<RawJob>, parentPath: seq<string>)
    ensures ListSize(ProcessJenkinsJobs(raws, parentPath)) == RawListSize(raws)
    decreases raws, 1
  {
    if raws != [] {
      ProcessedNodeSize(raws[0], parentPath);
      ProcessedSize(raws[1..], parentPath);
      assert ProcessJenkinsJobs(raws, parentPath)[1..] == ProcessJenkinsJobs(raws[1..], parentPath);
    }
  }

  lemma {:induction false} ProcessedNodeSize(r: RawJob, parentPath: seq<string>)
    ensures Size(ProcessJob(r, parentPath)) == RawSize(r)
    decreases r, 0
  {
    if HasChildRecords(r) {
      ProcessedSize(r.jobs.items, parentPath + [r.name]);
    }
  }
}
