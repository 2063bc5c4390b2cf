/**
 * `updateTimestamps` of the dashboard: re-bases every `lastBuild.timestamp`
 * to a point between one and twenty-four hours before `now`, chosen by a
 * hash of the job's name. `now` is the value of `Date.now()`, taken as a
 * parameter.
 */
module Timestamps {
  import opened Wrappers
  import opened JenkinsTypes

  const HourInMs: int := 3600000

  /** `name.split("").reduce((acc, char) => acc + char.charCodeAt(0), 0)` */
  function NameHash(name: string): nat
  {
    if name == [] then 0 else NameHash(name[..|name| - 1]) + name[|name| - 1] as nat
  }

  /** `((nameHash % 24) + 1) * hourInMs`: a whole number of hours, from 1 to 24. */
  function Offset(name: string): (o: int)
    ensures HourInMs <= o <= 24 * HourInMs
    ensures o % HourInMs == 0
  {
    (NameHash(name) % 24 + 1) * HourInMs
  }

  /** One job re-based; its children are visited only if it is a folder with a non-empty `jobs` list. */
  function UpdateJob(j: Job, now: int): (u: Job)
    ensures u.(lastBuild := j.lastBuild, jobs := j.jobs) == j
    ensures u.lastBuild.Some? <==> j.lastBuild.Some?
    ensures u.lastBuild.Some? ==>
              && u.lastBuild.value.(timestamp := j.lastBuild.value.timestamp) == j.lastBuild.value
              && u.lastBuild.value.timestamp == now - Offset(j.name)
              && HourInMs <= now - u.lastBuild.value.timestamp <= 24 * HourInMs
    ensures !(IsFolder(j) && j.jobs.Jobs? && |j.jobs.items| > 0) ==> u.jobs == j.jobs
    ensures u.jobs.Jobs? <==> j.jobs.Jobs?
    ensures u.jobs.Jobs? ==> |u.jobs.items| == |j.jobs.items|
    decreases j, 0
  {
    var stamped :=
      if j.lastBuild.Some? then
        j.(lastBuild := Some(j.lastBuild.value.(timestamp := now - Offset(j.name))))
      else j;
    if IsFolder(stamped) && stamped.jobs.Jobs? && |stamped.jobs.items| > 0 then
      stamped.(jobs := Jobs(UpdateTimestamps(stamped.jobs.items, now)))
    else stamped
  }

  /** `updateTimestamps`: a map over the list, in order. */
  function UpdateTimestamps(js: seq<Job>, now: int): (us: seq<Job>)
    ensures |us| == |js|
    ensures forall i :: 0 <= i < |js| ==> us[i] == UpdateJob(js[i], now)
    decreases js, 1
  {
    seq(|js|, i requires 0 <= i < |js| => UpdateJob(js[i], now))
  }

  /** Every node on the way to `NodeAt(js, ix)`, the node itself excluded, is a folder. */
  predicate ThroughFolders(js: seq<Job>, ix: seq<nat>)
    decreases |ix|
  {
    |ix| <= 1 || ix[0] >= |js| ||
      (IsFolder(js[ix[0]]) && match js[ix[0]].jobs
        case NoJobs => true
        case Jobs(k) => ThroughFolders(k, ix[1..]))
  }

  /**
   * Re-basing reaches exactly the nodes whose ancestors are all folders: such
   * a node is re-based to `now - Offset(name)`, any other node is left as it is.
   */
  lemma {:induction false} UpdateReachesThroughFolders(js: seq<Job>, ix: seq<nat>, now: int, n: Job)
    requires NodeAt(js, ix) == Some(n)
    ensures ThroughFolders(js, ix) ==> NodeAt(UpdateTimestamps(js, now), ix) == Some(UpdateJob(n, now))
    ensures ThroughFolders(js, ix) && n.lastBuild.Some? ==>
              NodeAt(UpdateTimestamps(js, now), ix).value.lastBuild.value.timestamp == now - Offset(n.name)
    ensures !ThroughFolders(js, ix) ==> NodeAt(UpdateTimestamps(js, now), ix) == Some(n)
    decreases |ix|
  {
    var us := UpdateTimestamps(js, now);
    var j := js[ix[0]];
    if |ix| > 1 {
      var k := j.jobs.items;
      assert NodeAt(js, ix) == NodeAt(k, ix[1..]);
      UpdateReachesThroughFolders(k, ix[1..], now, n);
      if IsFolder(j) {
        assert us[ix[0]].jobs == Jobs(UpdateTimestamps(k, now));
      } else {
        assert us[ix[0]].jobs == j.jobs;
      }
    }
  }

  /** The tree with every timestamp replaced by 0: what re-basing must leave alone. */
  function EraseTimestamp(j: Job): Job
    decreases j, 0
  {
    j.(lastBuild := if j.lastBuild.Some? then Some(j.lastBuild.value.(timestamp := 0)) else None,
       jobs := match j.jobs
         case NoJobs => NoJobs
         case Jobs(k) => Jobs(EraseTimestamps(k)))
  }

  function EraseTimestamps(js: seq<Job>): seq<Job>
    decreases js, 1
  {
    seq(|js|, i requires 0 <= i < |js| => EraseTimestamp(js[i]))
  }

  /** Re-basing changes nothing but timestamps, at any depth. */
  lemma {:induction false} UpdateOnlyTimestamps(js: seq<Job>, now: int)
    ensures EraseTimestamps(UpdateTimestamps(js, now)) == EraseTimestamps(js)
    decreases js, 1
  {
    forall i | 0 <= i < |js|
      ensures EraseTimestamps(UpdateTimestamps(js, now))[i] == EraseTimestamps(js)[i]
    {
      UpdateJobOnlyTimestamp(js[i], now);
    }
  }

  lemma {:induction false} UpdateJobOnlyTimestamp(j: Job, now: int)
    ensures EraseTimestamp(UpdateJob(j, now)) == EraseTimestamp(j)
    decreases j, 0
  {
    if IsFolder(j) && j.jobs.Jobs? && |j.jobs.items| > 0 {
      UpdateOnlyTimestamps(j.jobs.items, now);
    }
  }

  /** Re-basing twice with the same clock reading is the same as re-basing once. */
  lemma {:induction false} UpdateIdempotent(js: seq<Job>, now: int)
    ensures UpdateTimestamps(UpdateTimestamps(js, now), now) == UpdateTimestamps(js, now)
    decreases js, 1
  {
    forall i | 0 <= i < |js|
      ensures UpdateTimestamps(UpdateTimestamps(js, now), now)[i] == UpdateTimestamps(js, now)[i]
    {
      UpdateJobIdempotent(js[i], now);
    }
  }

  lemma {:induction false} UpdateJobIdempotent(j: Job, now: int)
    ensures UpdateJob(UpdateJob(j, now), now) == UpdateJob(j, now)
    decreases j, 0
  {
    if IsFolder(j) && j.jobs.Jobs? && |j.jobs.items| > 0 {
      UpdateIdempotent(j.jobs.items, now);
    }
  }

  /** Re-basing keeps every folder's `expanded` flag and `jobs` list, at every depth. */
  lemma {:induction false} UpdatePreservesExplicit(js: seq<Job>, now: int)
    requires FoldersExplicit(js)
    ensures FoldersExplicit(UpdateTimestamps(js, now))
    decreases js, 1
  {
    forall i | 0 <= i < |js| ensures NodeExplicit(UpdateTimestamps(js, now)[i]) {
      assert NodeExplicit(js[i]);
      UpdateJobPreservesExplicit(js[i], now);
    }
  }

  lemma {:induction false} UpdateJobPreservesExplicit(j: Job, now: int)
    requires NodeExplicit(j)
    ensures NodeExplicit(UpdateJob(j, now))
    decreases j, 0
  {
    if IsFolder(j) && j.jobs.Jobs? && |j.jobs.items| > 0 {
      UpdatePreservesExplicit(j.jobs.items, now);
    }
  }
}
