/**
 * `renderJobRows` of the dashboard, with the table markup reduced to the
 * data each row carries: the job, its depth and indentation, the path its
 * chevron toggles, its status badge and its build cells.
 */
module JobRows {
  import opened Wrappers
  import opened JenkinsTypes
  import opened JobStatus
  import opened FolderToggle

  /** The result cell: the build's result, or the "in progress" label for a null or empty one. */
  datatype ResultCell = ResultText(text: string) | Running

  /** The cells filled for a job (not a folder) with a last build. */
  datatype BuildCells = BuildCells(timestamp: int, result: ResultCell, duration: DurationText, number: int)

  datatype Row = Row(
    job: Job,
    level: nat,
    indent: int,
    togglePath: Option<seq<string>>,
    status: Option<Status>,
    build: Option<BuildCells>)

  /** The row pushed for one job at depth `level`. */
  function RowFor(j: Job, level: nat): (r: Row)
    ensures r.job == j && r.level == level && r.indent == 20 * level
    ensures r.togglePath.Some? <==> IsFolder(j)
    ensures IsFolder(j) ==> r.togglePath.value == j.path.GetOr([]) + [j.name]
    ensures r.status.Some? <==> !IsFolder(j)
    ensures r.build.Some? <==> !IsFolder(j) && j.lastBuild.Some?
  {
    var folder := IsFolder(j);
    Row(
      j,
      level,
      level * 20,
      if folder then Some(if j.path.Some? then j.path.value + [j.name] else [j.name]) else None,
      if folder then None else Some(ColorStatus(j.color)),
      if !folder && j.lastBuild.Some? then
        var b := j.lastBuild.value;
        Some(BuildCells(
          b.timestamp,
          if b.result.Some? && b.result.value != "" then ResultText(b.result.value) else Running,
          FormatDuration(b.duration),
          b.number))
      else None)
  }

  /** `job.isFolder && job.expanded && job.jobs`: the children are rendered below the folder. */
  predicate ShowsChildren(j: Job) {
    IsFolder(j) && Truthy(j.expanded) && j.jobs.Jobs?
  }

  /** The rows of one job: its own row, then its children's rows one level deeper. */
  function NodeRows(j: Job, level: nat): seq<Row>
    decreases j, 0
  {
    [RowFor(j, level)] + if ShowsChildren(j) then ListRows(j.jobs.items, level + 1) else []
  }

  /** The rows `renderJobRows(jobList, level)` returns. */
  function ListRows(js: seq<Job>, level: nat): seq<Row>
    decreases js, 1
  {
    if js == [] then [] else ListRows(js[..|js| - 1], level) + NodeRows(js[|js| - 1], level)
  }

  /** `renderJobRows`: a loop over the list that pushes each job's row and then, recursively, its children's. */
  method RenderJobRows(jobList: seq<Job>, level: nat) returns (rows: seq<Row>)
    ensures rows == ListRows(jobList, level)
    decreases ListSize(jobList)
  {
    rows := [];
    for i := 0 to |jobList|
      invariant rows == ListRows(jobList[..i], level)
    {
      var job := jobList[i];
      var before := rows;
      rows := rows + [RowFor(job, level)];
      if IsFolder(job) && Truthy(job.expanded) && job.jobs.Jobs? {
        ElementSmaller(jobList, i);
        var children := RenderJobRows(job.jobs.items, level + 1);
        rows := rows + children;
        assert rows == before + NodeRows(job, level);
      } else {
        assert rows == before + NodeRows(job, level);
      }
      assert jobList[..i + 1][..i] == jobList[..i];
      assert ListRows(jobList[..i + 1], level) == before + NodeRows(job, level);
    }
    assert jobList[..|jobList|] == jobList;
  }

  // ---- Levels and indentation -------------------------------------------------

  /** Every row is at the starting level or deeper, and is indented 20 pixels per level. */
  lemma {:induction false} RowLevels(js: seq<Job>, level: nat)
    ensures forall k :: 0 <= k < |ListRows(js, level)| ==>
              ListRows(js, level)[k].level >= level && ListRows(js, level)[k].indent == 20 * ListRows(js, level)[k].level
    decreases js, 1
  {
    if js != [] {
      var n := |js| - 1;
      RowLevels(js[..n], level);
      NodeRowLevels(js[n], level);
    }
  }

  lemma {:induction false} NodeRowLevels(j: Job, level: nat)
    ensures forall k :: 0 <= k < |NodeRows(j, level)| ==>
              NodeRows(j, level)[k].level >= level && NodeRows(j, level)[k].indent == 20 * NodeRows(j, level)[k].level
    decreases j, 0
  {
    if ShowsChildren(j) {
      RowLevels(j.jobs.items, level + 1);
    }
  }

  // ---- Pre-order --------------------------------------------------------------

  /** The jobs of the rows at exactly `level`, in row order. */
  function JobsAtLevel(rows: seq<Row>, level: nat): seq<Job> {
    if rows == [] then []
    else
      var last := rows[|rows| - 1];
      JobsAtLevel(rows[..|rows| - 1], level) + (if last.level == level then [last.job] else [])
  }

  lemma {:induction false} JobsAtLevelAppend(a: seq<Row>, b: seq<Row>, level: nat)
    ensures JobsAtLevel(a + b, level) == JobsAtLevel(a, level) + JobsAtLevel(b, level)
    decreases |b|
  {
    if b == [] {
      assert a + b == a;
    } else {
      var pre, x := b[..|b| - 1], b[|b| - 1];
      var own := if x.level == level then [x.job] else [];
      JobsAtLevelAppend(a, pre, level);
      assert (a + b)[..|a + b| - 1] == a + pre;
      calc {
        JobsAtLevel(a + b, level);
        JobsAtLevel(a + pre, level) + own;
        JobsAtLevel(a, level) + JobsAtLevel(pre, level) + own;
        JobsAtLevel(a, level) + JobsAtLevel(b, level);
      }
    }
  }

  lemma {:induction false} DeeperRowsHaveNoJobsAtLevel(rows: seq<Row>, level: nat)
    requires forall k :: 0 <= k < |rows| ==> rows[k].level > level
    ensures JobsAtLevel(rows, level) == []
  {
    if rows != [] {
      DeeperRowsHaveNoJobsAtLevel(rows[..|rows| - 1], level);
    }
  }

  /** Where the rows of `js[i]` begin in `ListRows(js, level)`: after the rows of the jobs before it. */
  function RowStart(js: seq<Job>, level: nat, i: nat): nat
    requires i <= |js|
  {
    |ListRows(js[..i], level)|
  }

  /** The rows of the first `m` jobs are a prefix of the rows of the whole list. */
  lemma {:induction false} RowsPrefix(js: seq<Job>, level: nat, m: nat)
    requires m <= |js|
    ensures RowStart(js, level, m) <= |ListRows(js, level)|
    ensures ListRows(js, level)[..RowStart(js, level, m)] == ListRows(js[..m], level)
  {
    if m == |js| {
      assert js[..m] == js;
    } else {
      var pre := js[..|js| - 1];
      assert js[..m] == pre[..m];
      RowsPrefix(pre, level, m);
      assert ListRows(js, level) == ListRows(pre, level) + NodeRows(js[|js| - 1], level);
    }
  }

  /** The rows of the first `i + 1` jobs are those of the first `i`, then those of `js[i]`. */
  lemma RowsSnoc(js: seq<Job>, level: nat, i: nat)
    requires i < |js|
    ensures ListRows(js[..i + 1], level) == ListRows(js[..i], level) + NodeRows(js[i], level)
  {
    assert js[..i + 1][..i] == js[..i] && js[..i + 1][i] == js[i];
  }

  /** The rows of `js[i]` form one block of `ListRows(js, level)`, headed by its own row. */
  lemma RowBlock(js: seq<Job>, level: nat, i: nat)
    requires i < |js|
    ensures RowStart(js, level, i) < RowStart(js, level, i + 1) <= |ListRows(js, level)|
    ensures ListRows(js, level)[RowStart(js, level, i)..RowStart(js, level, i + 1)] == NodeRows(js[i], level)
    ensures ListRows(js, level)[RowStart(js, level, i)] == RowFor(js[i], level)
    ensures forall k :: RowStart(js, level, i) < k < RowStart(js, level, i + 1) ==>
              ListRows(js, level)[k].level > level
  {
    var rows, a, b := ListRows(js, level), ListRows(js[..i], level), NodeRows(js[i], level);
    RowsSnoc(js, level, i);
    RowsPrefix(js, level, i + 1);
    NodeRowsStartWithNode(js[i], level);
    BlockAfterPrefix(rows, a, b, RowStart(js, level, i + 1));
  }

  /** A prefix of `rows` that is `a + b` holds `b` right after `a`. */
  lemma BlockAfterPrefix(rows: seq<Row>, a: seq<Row>, b: seq<Row>, e: nat)
    requires e <= |rows| && rows[..e] == a + b
    ensures e == |a| + |b| && rows[|a|..e] == b
    ensures forall k :: |a| <= k < e ==> rows[k] == b[k - |a|]
  {
    assert rows[|a|..e] == rows[..e][|a|..];
  }

  /** Reading only the rows of the starting level gives back the list, in order. */
  lemma {:induction false} StartLevelJobs(js: seq<Job>, level: nat)
    ensures JobsAtLevel(ListRows(js, level), level) == js
  {
    if js != [] {
      var pre, x := js[..|js| - 1], js[|js| - 1];
      var a, b := ListRows(pre, level), NodeRows(x, level);
      StartLevelJobs(pre, level);
      JobsAtLevelAppend(a, b, level);
      NodeRowsStartWithNode(x, level);
      calc {
        JobsAtLevel(ListRows(js, level), level);
        JobsAtLevel(a + b, level);
        JobsAtLevel(a, level) + JobsAtLevel(b, level);
        pre + [x];
        js;
      }
    }
  }

  /**
   * The rows are the pre-order of the visible tree: reading only the rows of
   * the starting level gives back the list itself, in order; the rows of
   * `js[i]` form one block that starts with its own row, and every other row
   * of the block, one of its visible descendants, lies deeper.
   */
  lemma RowsArePreOrder(js: seq<Job>, level: nat)
    ensures JobsAtLevel(ListRows(js, level), level) == js
    ensures RowStart(js, level, |js|) == |ListRows(js, level)|
    ensures forall i {:trigger RowStart(js, level, i)} :: 0 <= i < |js| ==>
              && RowStart(js, level, i) < RowStart(js, level, i + 1) <= |ListRows(js, level)|
              && ListRows(js, level)[RowStart(js, level, i)..RowStart(js, level, i + 1)] == NodeRows(js[i], level)
              && ListRows(js, level)[RowStart(js, level, i)] == RowFor(js[i], level)
              && forall k :: RowStart(js, level, i) < k < RowStart(js, level, i + 1) ==>
                   ListRows(js, level)[k].level > level
  {
    assert js[..|js|] == js;
    forall i {:trigger RowStart(js, level, i)} | 0 <= i < |js|
      ensures && RowStart(js, level, i) < RowStart(js, level, i + 1) <= |ListRows(js, level)|
              && ListRows(js, level)[RowStart(js, level, i)..RowStart(js, level, i + 1)] == NodeRows(js[i], level)
              && ListRows(js, level)[RowStart(js, level, i)] == RowFor(js[i], level)
              && forall k :: RowStart(js, level, i) < k < RowStart(js, level, i + 1) ==>
                   ListRows(js, level)[k].level > level
    {
      RowBlock(js, level, i);
    }
    StartLevelJobs(js, level);
  }

  /** A job's rows start with its own row, and all the others, its visible descendants', lie deeper. */
  lemma NodeRowsStartWithNode(j: Job, level: nat)
    ensures |NodeRows(j, level)| > 0 && NodeRows(j, level)[0] == RowFor(j, level)
    ensures forall k :: 1 <= k < |NodeRows(j, level)| ==> NodeRows(j, level)[k].level > level
    ensures JobsAtLevel(NodeRows(j, level), level) == [j]
  {
    var below := if ShowsChildren(j) then ListRows(j.jobs.items, level + 1) else [];
    if ShowsChildren(j) {
      RowLevels(j.jobs.items, level + 1);
    }
    assert forall k :: 1 <= k < |NodeRows(j, level)| ==> NodeRows(j, level)[k] == below[k - 1];
    DeeperRowsHaveNoJobsAtLevel(below, level);
    JobsAtLevelAppend([RowFor(j, level)], below, level);
    assert JobsAtLevel([RowFor(j, level)], level) == [j] by {
      assert [RowFor(j, level)][..0] == [];
    }
  }

  // ---- Visibility ---------------------------------------------------------------

  /** There is at most one row per node, and exactly one when every folder with `jobs` is open. */
  lemma {:induction false} RowCount(js: seq<Job>, level: nat)
    ensures |ListRows(js, level)| <= ListSize(js)
    ensures FullyOpen(js) ==> |ListRows(js, level)| == ListSize(js)
    decreases js, 1
  {
    if js != [] {
      var n := |js| - 1;
      RowCount(js[..n], level);
      NodeRowCount(js[n], level);
      ListSizeAppend(js[..n], [js[n]]);
      assert js[..n] + [js[n]] == js;
    }
  }

  lemma {:induction false} NodeRowCount(j: Job, level: nat)
    ensures |NodeRows(j, level)| <= Size(j)
    ensures NodeOpen(j) ==> |NodeRows(j, level)| == Size(j)
    decreases j, 0
  {
    if j.jobs.Jobs? {
      RowCount(j.jobs.items, level + 1);
    }
  }

  // ---- Toggle paths -------------------------------------------------------------

  /**
   * On a tree whose paths name each node's ancestors (a top-level job may
   * leave `path` out, as the test data does), the path a folder's chevron
   * sends to `toggleFolder` leads from the root back to that folder, so the
   * toggle cannot be a no-op.
   */
  lemma {:induction false} ToggleTargetsResolve(js: seq<Job>, parent: seq<string>)
    requires PathsBelow(js, parent)
    ensures forall k :: 0 <= k < |ListRows(js, |parent|)| && ListRows(js, |parent|)[k].togglePath.Some? ==>
              && |ListRows(js, |parent|)[k].togglePath.value| > |parent|
              && ListRows(js, |parent|)[k].togglePath.value[..|parent|] == parent
              && Resolves(js, ListRows(js, |parent|)[k].togglePath.value, |parent|)
    decreases js, 1
  {
    if js != [] {
      var n := |js| - 1;
      var pre, rows := js[..n], ListRows(js, |parent|);
      assert PathsBelow(pre, parent);
      ToggleTargetsResolve(pre, parent);
      assert NodePathsBelow(js[n], parent);
      NodeToggleTargetsResolve(js[n], parent);
      var a, b := ListRows(pre, |parent|), NodeRows(js[n], |parent|);
      forall k | 0 <= k < |rows| && rows[k].togglePath.Some?
        ensures Resolves(js, rows[k].togglePath.value, |parent|)
      {
        var path := rows[k].togglePath.value;
        if k < |a| {
          assert rows[k] == a[k];
          var i :| 0 <= i < |pre| && NodeResolves(pre[i], path, |parent|);
          assert js[i] == pre[i];
        } else {
          assert rows[k] == b[k - |a|];
          assert NodeResolves(js[n], path, |parent|);
        }
      }
    }
  }

  lemma {:induction false} NodeToggleTargetsResolve(j: Job, parent: seq<string>)
    requires NodePathsBelow(j, parent)
    ensures forall k :: 0 <= k < |NodeRows(j, |parent|)| && NodeRows(j, |parent|)[k].togglePath.Some? ==>
              && |NodeRows(j, |parent|)[k].togglePath.value| > |parent|
              && NodeRows(j, |parent|)[k].togglePath.value[..|parent|] == parent
              && NodeResolves(j, NodeRows(j, |parent|)[k].togglePath.value, |parent|)
    decreases j, 0
  {
    var rows := NodeRows(j, |parent|);
    var own := parent + [j.name];
    if ShowsChildren(j) {
      ToggleTargetsResolve(j.jobs.items, own);
    }
    forall k | 0 <= k < |rows| && rows[k].togglePath.Some?
      ensures && |rows[k].togglePath.value| > |parent|
              && rows[k].togglePath.value[..|parent|] == parent
              && NodeResolves(j, rows[k].togglePath.value, |parent|)
    {
      var path := rows[k].togglePath.value;
      if k == 0 {
        assert j.path.GetOr([]) == parent;
        assert path == own;
      } else {
        var c := ListRows(j.jobs.items, |own|);
        assert rows[k] == c[k - 1];
        assert path[..|own|] == own;
        assert path[..|parent|] == own[..|parent|] == parent;
        assert path[|parent|] == own[|parent|] == j.name;
      }
    }
  }
}
