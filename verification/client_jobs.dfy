/**
 * `normalizeJobData` of the `JobStatus` card: a second normaliser of raw job
 * records, with defaults of its own that differ from the server's.
 */
module ClientJobs {
  import opened Wrappers
  import opened Strings
  import opened JenkinsTypes
  import opened JobStatus
  import ServerRoute

  /** The object the card normaliser builds; it has no `url`, `path` or `expanded`. */
  datatype ClientJob = ClientJob(
    name: string,
    isFolder: bool,
    color: string,
    lastBuild: Option<LastBuild>,
    jobs: seq<ClientJob>)

  /** `normalizeJobData`: copies the record, defaulting each optional field, and maps over `jobs` when present. */
  function NormalizeJobData(r: RawJob): (c: ClientJob)
    ensures c.name == r.name
    ensures c.isFolder == Truthy(r.isFolder)
    ensures c.color == OrDefault(r.color, "unknown")
    ensures c.lastBuild == r.lastBuild
    ensures r.jobs == RawNone ==> c.jobs == []
    ensures r.jobs.RawList? ==> |c.jobs| == |r.jobs.items|
    ensures r.jobs.RawList? ==> forall i :: 0 <= i < |r.jobs.items| ==> c.jobs[i] == NormalizeJobData(r.jobs.items[i])
  {
    ClientJob(
      r.name,
      Truthy(r.isFolder),
      OrDefault(r.color, "unknown"),
      r.lastBuild,
      match r.jobs
        case RawNone => []
        case RawList(k) => seq(|k|, i requires 0 <= i < |k| => NormalizeJobData(k[i])))
  }

  function ClientSize(c: ClientJob): nat {
    1 + ClientListSize(c.jobs)
  }

  function ClientListSize(cs: seq<ClientJob>): nat {
    if cs == [] then 0 else ClientSize(cs[0]) + ClientListSize(cs[1..])
  }

  /** No record is lost or invented at any depth. */
  lemma {:induction false} NormalizeKeepsSize(r: RawJob)
    ensures ClientSize(NormalizeJobData(r)) == RawSize(r)
    decreases r, 0
  {
    if r.jobs.RawList? {
      NormalizeListKeepsSize(r.jobs.items);
    }
  }

  lemma {:induction false} NormalizeListKeepsSize(rs: seq<RawJob>)
    ensures ClientListSize(seq(|rs|, i requires 0 <= i < |rs| => NormalizeJobData(rs[i]))) == RawListSize(rs)
    decreases rs, 1
  {
    if rs != [] {
      var cs := seq(|rs|, i requires 0 <= i < |rs| => NormalizeJobData(rs[i]));
      NormalizeKeepsSize(rs[0]);
      NormalizeListKeepsSize(rs[1..]);
      assert cs[1..] == seq(|rs[1..]|, i requires 0 <= i < |rs[1..]| => NormalizeJobData(rs[1..][i]));
    }
  }

  /**
   * The card shows a record with children but no `isFolder` flag as a job,
   * where the server normaliser would have made it a folder; and a missing
   * color as "unknown" where the server writes "grey".
   */
  lemma NormalisersDisagree()
    ensures var leaf := RawJob("build", "http://ci/job/build/", Some("blue"), None, None, RawNone);
            var r := RawJob("team", "http://ci/job/team/", None, None, None, RawList([leaf]));
            && IsFolder(ServerRoute.ProcessJob(r, []))
            && !NormalizeJobData(r).isFolder
            && FolderAwareStatus(Some(NormalizeJobData(r).color), NormalizeJobData(r).isFolder) == Unknown
            && ServerRoute.ProcessJob(r, []).color == "grey"
            && NormalizeJobData(r).color == "unknown"
  {
    var leaf := RawJob("build", "http://ci/job/build/", Some("blue"), None, None, RawNone);
    var r := RawJob("team", "http://ci/job/team/", None, None, None, RawList([leaf]));
    MissingFirstCharNotContained("unknown", "anime");
  }
}
