/**
 * The job-tree entity shared by the server normaliser and the dashboard
 * (the `JenkinsJob` interface), and the loosely-typed record the Jenkins
 * JSON API delivers.
 */
module JenkinsTypes {
  import opened Wrappers

  /** The most recent build; `result` is JSON null while the build is still running. */
  datatype LastBuild = LastBuild(number: int, timestamp: int, result: Option<string>, duration: int)

  /**
   * The optional `jobs` field. A dedicated type rather than `Option<seq<Job>>`,
   * so that a child is structurally smaller than its parent.
   */
  datatype Children = NoJobs | Jobs(items: seq<Job>)

  /**
   * A job or a folder. `lastBuild`, `isFolder`, `jobs`, `path` and `expanded`
   * are optional fields: `None` / `NoJobs` stands for an absent property,
   * which the operations treat differently from `false` or an empty list.
   */
  datatype Job = Job(
    name: string,
    url: string,
    color: string,
    lastBuild: Option<LastBuild>,
    isFolder: Option<bool>,
    jobs: Children,
    path: Option<seq<string>>,
    expanded: Option<bool>)

  /** An optional boolean read in a JavaScript condition: only a present `true` is truthy. */
  predicate Truthy(b: Option<bool>) {
    b == Some(true)
  }

  /** `job.isFolder` as a condition. */
  predicate IsFolder(j: Job) {
    Truthy(j.isFolder)
  }

  /** A record as the Jenkins API returns it; `jobs` is absent or an array. */
  datatype RawChildren = RawNone | RawList(items: seq<RawJob>)

  datatype RawJob = RawJob(
    name: string,
    url: string,
    color: Option<string>,
    lastBuild: Option<LastBuild>,
    isFolder: Option<bool>,
    jobs: RawChildren)

  /** Number of nodes in a subtree, counting through every present `jobs` list. */
  function Size(j: Job): nat
  {
    1 + match j.jobs
        case NoJobs => 0
        case Jobs(k) => ListSize(k)
  }

  function ListSize(js: seq<Job>): nat
  {
    if js == [] then 0 else Size(js[0]) + ListSize(js[1..])
  }

  /** Every element's subtree, and so every child list, is smaller than the list holding it. */
  lemma {:induction false} ElementSmaller(js: seq<Job>, i: int)
    requires 0 <= i < |js|
    ensures Size(js[i]) <= ListSize(js)
    ensures js[i].jobs.Jobs? ==> ListSize(js[i].jobs.items) < ListSize(js)
  {
    if i > 0 {
      ElementSmaller(js[1..], i - 1);
    }
  }

  lemma {:induction false} ListSizeAppend(a: seq<Job>, b: seq<Job>)
    ensures ListSize(a + b) == ListSize(a) + ListSize(b)
  {
    if a != [] {
      assert (a + b)[1..] == a[1..] + b;
      ListSizeAppend(a[1..], b);
    } else {
      assert a + b == b;
    }
  }

  function RawSize(r: RawJob): nat
  {
    1 + match r.jobs
        case RawNone => 0
        case RawList(k) => RawListSize(k)
  }

  function RawListSize(rs: seq<RawJob>): nat
  {
    if rs == [] then 0 else RawSize(rs[0]) + RawListSize(rs[1..])
  }

  // ---- Shape invariants of a job tree --------------------------------------

  /** Every node's `path` is the list of its ancestors' names, below `parent`. */
  predicate PathsFrom(js: seq<Job>, parent: seq<string>) {
    forall i :: 0 <= i < |js| ==> NodePathsFrom(js[i], parent)
  }

  predicate NodePathsFrom(j: Job, parent: seq<string>) {
    && j.path == Some(parent)
    && (j.jobs.Jobs? ==> PathsFrom(j.jobs.items, parent + [j.name]))
  }

  /**
   * `PathsFrom`, except that a top-level job may leave `path` out, as the
   * dashboard's test data does; the dashboard then uses `[name]` alone.
   */
  predicate PathsBelow(js: seq<Job>, parent: seq<string>) {
    forall i :: 0 <= i < |js| ==> NodePathsBelow(js[i], parent)
  }

  predicate NodePathsBelow(j: Job, parent: seq<string>) {
    && (j.path == Some(parent) || (parent == [] && j.path.None?))
    && (j.jobs.Jobs? ==> PathsBelow(j.jobs.items, parent + [j.name]))
  }

  /** A tree whose every node states its path meets the looser invariant too. */
  lemma {:induction false} PathsFromIsBelow(js: seq<Job>, parent: seq<string>)
    requires PathsFrom(js, parent)
    ensures PathsBelow(js, parent)
    decreases js
  {
    forall i | 0 <= i < |js| ensures NodePathsBelow(js[i], parent) {
      var j := js[i];
      assert NodePathsFrom(j, parent);
      if j.jobs.Jobs? {
        PathsFromIsBelow(j.jobs.items, parent + [j.name]);
      }
    }
  }

  /** Every folder states `expanded` and carries a `jobs` list, at every depth. */
  predicate FoldersExplicit(js: seq<Job>) {
    forall i :: 0 <= i < |js| ==> NodeExplicit(js[i])
  }

  predicate NodeExplicit(j: Job) {
    && (IsFolder(j) ==> j.expanded.Some? && j.jobs.Jobs?)
    && (j.jobs.Jobs? ==> FoldersExplicit(j.jobs.items))
  }

  /** Two lists of explicit folders concatenate to one. */
  lemma FoldersExplicitConcat(a: seq<Job>, b: seq<Job>)
    requires FoldersExplicit(a) && FoldersExplicit(b)
    ensures FoldersExplicit(a + b)
  {
    forall i | 0 <= i < |a + b| ensures NodeExplicit((a + b)[i]) {
      if i < |a| {
        assert (a + b)[i] == a[i];
      } else {
        assert (a + b)[i] == b[i - |a|];
      }
    }
  }

  /** Every node that carries a `jobs` list is a folder with `expanded` set to true, at every depth. */
  predicate FullyOpen(js: seq<Job>) {
    forall i :: 0 <= i < |js| ==> NodeOpen(js[i])
  }

  predicate NodeOpen(j: Job) {
    j.jobs.Jobs? ==> IsFolder(j) && Truthy(j.expanded) && FullyOpen(j.jobs.items)
  }

  // ---- Addressing a node by its positions from the root ---------------------

  /** The node reached by taking child `ix[0]`, then child `ix[1]` of that, and so on. */
  function NodeAt(js: seq<Job>, ix: seq<nat>): Option<Job>
    decreases |ix|
  {
    if ix == [] || ix[0] >= |js| then None
    else if |ix| == 1 then Some(js[ix[0]])
    else match js[ix[0]].jobs
      case NoJobs => None
      case Jobs(k) => NodeAt(k, ix[1..])
  }

  /** The names of the nodes passed on the way to `NodeAt(js, ix)`, root first. */
  function AncestorNames(js: seq<Job>, ix: seq<nat>): seq<string>
    decreases |ix|
  {
    if |ix| <= 1 || ix[0] >= |js| then []
    else [js[ix[0]].name] + match js[ix[0]].jobs
      case NoJobs => []
      case Jobs(k) => AncestorNames(k, ix[1..])
  }

  /** Under `PathsFrom`, a node at depth d has a path of length d naming its ancestors. */
  lemma {:induction false} PathIsAncestorNames(js: seq<Job>, parent: seq<string>, ix: seq<nat>, n: Job)
    requires PathsFrom(js, parent) && NodeAt(js, ix) == Some(n)
    ensures n.path == Some(parent + AncestorNames(js, ix))
    ensures |AncestorNames(js, ix)| == |ix| - 1
    decreases |ix|
  {
    var j := js[ix[0]];
    assert NodePathsFrom(j, parent);
    if |ix| > 1 {
      var k := j.jobs.items;
      PathIsAncestorNames(k, parent + [j.name], ix[1..], n);
      assert AncestorNames(js, ix) == [j.name] + AncestorNames(k, ix[1..]);
      assert parent + [j.name] + AncestorNames(k, ix[1..]) == parent + ([j.name] + AncestorNames(k, ix[1..]));
    } else {
      assert n == j && AncestorNames(js, ix) == [];
      assert parent + [] == parent;
    }
  }
}
