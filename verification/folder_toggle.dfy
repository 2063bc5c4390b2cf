/**
 * `toggleFolder` / `updateFolderState` of the dashboard: flips `expanded` on
 * the folder reached by following a list of names from the root, rebuilding
 * only the folders on that route.
 */
module FolderToggle {
  import opened Wrappers
  import opened JenkinsTypes

  /** `job.isFolder && depth < path.length && job.name === path[depth]` */
  predicate OnRoute(j: Job, path: seq<string>, depth: nat) {
    IsFolder(j) && depth < |path| && j.name == path[depth]
  }

  /** The `jobs` list a rebuilt folder passes down: `job.jobs ? … : []`. */
  function ChildList(j: Job): seq<Job> {
    if j.jobs.Jobs? then j.jobs.items else []
  }

  /** One element of the `map` in `updateFolderState`. */
  function ToggleJob(j: Job, path: seq<string>, depth: nat): (t: Job)
    ensures !OnRoute(j, path, depth) ==> t == j
    ensures OnRoute(j, path, depth) ==> t.(expanded := j.expanded, jobs := j.jobs) == j
    ensures OnRoute(j, path, depth) && depth == |path| - 1 ==>
              && t.expanded == Some(!Truthy(j.expanded))
              && t.jobs == Jobs(ChildList(j))
    ensures OnRoute(j, path, depth) && depth < |path| - 1 ==>
              && t.expanded == j.expanded
              && t.jobs == Jobs(if j.jobs.Jobs? then UpdateFolderState(j.jobs.items, path, depth + 1) else [])
    decreases j, 0
  {
    if OnRoute(j, path, depth) then
      var kids := match j.jobs
        case NoJobs => []
        case Jobs(k) => UpdateFolderState(k, path, depth + 1);
      if depth == |path| - 1 then j.(expanded := Some(!Truthy(j.expanded)), jobs := Jobs(kids))
      else j.(jobs := Jobs(kids))
    else j
  }

  /** `updateFolderState(jobList, path, depth)` */
  function UpdateFolderState(js: seq<Job>, path: seq<string>, depth: nat): (ts: seq<Job>)
    ensures |ts| == |js|
    ensures forall i :: 0 <= i < |js| && !OnRoute(js[i], path, depth) ==> ts[i] == js[i]
    ensures forall i :: 0 <= i < |js| ==> ts[i] == ToggleJob(js[i], path, depth)
    ensures depth >= |path| ==> ts == js
    decreases js, 1
  {
    seq(|js|, i requires 0 <= i < |js| => ToggleJob(js[i], path, depth))
  }

  /** Some folder on the route `path[depth..]` exists below this list. */
  predicate Resolves(js: seq<Job>, path: seq<string>, depth: nat)
    decreases js, 1
  {
    exists i :: 0 <= i < |js| && NodeResolves(js[i], path, depth)
  }

  predicate NodeResolves(j: Job, path: seq<string>, depth: nat)
    decreases j, 0
  {
    && OnRoute(j, path, depth)
    && (depth == |path| - 1 || (j.jobs.Jobs? && Resolves(j.jobs.items, path, depth + 1)))
  }

  /** A path that reaches no folder (for instance, one gone stale after a refresh) changes nothing. */
  lemma {:induction false} StalePathIsNoOp(js: seq<Job>, path: seq<string>, depth: nat)
    requires FoldersExplicit(js)
    requires !Resolves(js, path, depth)
    ensures UpdateFolderState(js, path, depth) == js
    decreases js, 1
  {
    forall i | 0 <= i < |js| ensures UpdateFolderState(js, path, depth)[i] == js[i] {
      assert NodeExplicit(js[i]) && !NodeResolves(js[i], path, depth);
      StaleNodeIsNoOp(js[i], path, depth);
    }
  }

  lemma {:induction false} StaleNodeIsNoOp(j: Job, path: seq<string>, depth: nat)
    requires NodeExplicit(j)
    requires !NodeResolves(j, path, depth)
    ensures ToggleJob(j, path, depth) == j
    decreases j, 0
  {
    if OnRoute(j, path, depth) {
      StalePathIsNoOp(j.jobs.items, path, depth + 1);
    }
  }

  /** Toggling the same path twice gives back the tree it started from. */
  lemma {:induction false} ToggleTwice(js: seq<Job>, path: seq<string>, depth: nat)
    requires FoldersExplicit(js)
    ensures UpdateFolderState(UpdateFolderState(js, path, depth), path, depth) == js
    decreases js, 1
  {
    forall i | 0 <= i < |js|
      ensures UpdateFolderState(UpdateFolderState(js, path, depth), path, depth)[i] == js[i]
    {
      assert NodeExplicit(js[i]);
      ToggleJobTwice(js[i], path, depth);
    }
  }

  lemma {:induction false} ToggleJobTwice(j: Job, path: seq<string>, depth: nat)
    requires NodeExplicit(j)
    ensures ToggleJob(ToggleJob(j, path, depth), path, depth) == j
    decreases j, 0
  {
    if OnRoute(j, path, depth) && depth < |path| - 1 {
      ToggleTwice(j.jobs.items, path, depth + 1);
    } else if OnRoute(j, path, depth) {
      var t := ToggleJob(j, path, depth);
      assert t.jobs == j.jobs && t.expanded == Some(!j.expanded.value);
    }
  }

  /** The tree with every `expanded` flag erased: what a toggle must leave alone. */
  function EraseExpanded(j: Job): Job
    decreases j, 0
  {
    j.(expanded := None,
       jobs := match j.jobs
         case NoJobs => NoJobs
         case Jobs(k) => Jobs(EraseAllExpanded(k)))
  }

  function EraseAllExpanded(js: seq<Job>): seq<Job>
    decreases js, 1
  {
    seq(|js|, i requires 0 <= i < |js| => EraseExpanded(js[i]))
  }

  /** On a tree whose folders all carry `jobs`, a toggle changes `expanded` flags and nothing else. */
  lemma {:induction false} ToggleOnlyExpanded(js: seq<Job>, path: seq<string>, depth: nat)
    requires FoldersExplicit(js)
    ensures EraseAllExpanded(UpdateFolderState(js, path, depth)) == EraseAllExpanded(js)
    decreases js, 1
  {
    forall i | 0 <= i < |js|
      ensures EraseAllExpanded(UpdateFolderState(js, path, depth))[i] == EraseAllExpanded(js)[i]
    {
      assert NodeExplicit(js[i]);
      ToggleJobOnlyExpanded(js[i], path, depth);
    }
  }

  lemma {:induction false} ToggleJobOnlyExpanded(j: Job, path: seq<string>, depth: nat)
    requires NodeExplicit(j)
    ensures EraseExpanded(ToggleJob(j, path, depth)) == EraseExpanded(j)
    decreases j, 0
  {
    if OnRoute(j, path, depth) && depth < |path| - 1 {
      ToggleOnlyExpanded(j.jobs.items, path, depth + 1);
    }
  }

  /** A toggle keeps every folder explicit, so it can be repeated with the same guarantees. */
  lemma {:induction false} TogglePreservesExplicit(js: seq<Job>, path: seq<string>, depth: nat)
    requires FoldersExplicit(js)
    ensures FoldersExplicit(UpdateFolderState(js, path, depth))
    decreases js, 1
  {
    var ts := UpdateFolderState(js, path, depth);
    forall i | 0 <= i < |js| ensures NodeExplicit(ts[i]) {
      assert NodeExplicit(js[i]);
      ToggleJobPreservesExplicit(js[i], path, depth);
    }
  }

  lemma {:induction false} ToggleJobPreservesExplicit(j: Job, path: seq<string>, depth: nat)
    requires NodeExplicit(j)
    ensures NodeExplicit(ToggleJob(j, path, depth))
    decreases j, 0
  {
    if OnRoute(j, path, depth) && depth < |path| - 1 {
      TogglePreservesExplicit(j.jobs.items, path, depth + 1);
    }
  }
}
