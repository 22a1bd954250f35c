/** The work plan `RepoSage.create_tasks` hands to the agents: the selected
    files in groups of five, an analysis task and an improvement task per
    group, and one closing pull-request task. Tasks refer to the tasks they
    build on by their position in the plan. The agents themselves and the
    wording of the task prompts are not part of this model. */
module Batching {
  import opened Wrappers
  import opened FileSelection

  const GroupSize: nat := 5

  function Min(a: int, b: int): int {
    if a <= b then a else b
  }

  /** `[files[i:i+5] for i in range(0, len(files), 5)]` */
  function Groups<T>(s: seq<T>): (r: seq<seq<T>>)
    ensures |r| == (|s| + GroupSize - 1) / GroupSize
  {
    seq((|s| + GroupSize - 1) / GroupSize,
        k requires 0 <= k < (|s| + GroupSize - 1) / GroupSize =>
          s[GroupSize * k .. Min(GroupSize * k + GroupSize, |s|)])
  }

  function Concat<T>(ss: seq<seq<T>>): seq<T> {
    if ss == [] then [] else ss[0] + Concat(ss[1..])
  }

  /** Every group holds one to five files, all but the last exactly five. */
  lemma GroupSizes<T>(s: seq<T>, k: nat)
    requires k < |Groups(s)|
    ensures 1 <= |Groups(s)[k]| <= GroupSize
    ensures k < |Groups(s)| - 1 ==> |Groups(s)[k]| == GroupSize
  {
  }

  /** Peeling the first group off. */
  lemma GroupsCons<T>(s: seq<T>)
    requires s != []
    ensures Groups(s) == [s[..Min(GroupSize, |s|)]] + Groups(s[Min(GroupSize, |s|)..])
  {
    var n := Min(GroupSize, |s|);
    var g, rest := Groups(s), Groups(s[n..]);
    assert |g| == 1 + |rest|;
    forall k | 0 <= k < |g|
      ensures g[k] == ([s[..n]] + rest)[k]
    {
      if k > 0 {
        assert rest[k - 1] == s[n..][GroupSize * (k - 1) .. Min(GroupSize * (k - 1) + GroupSize, |s| - n)];
      }
    }
  }

  /** The groups are the file list cut into pieces: nothing lost, nothing
      repeated, order kept. */
  lemma {:induction false} GroupsConcat<T>(s: seq<T>)
    ensures Concat(Groups(s)) == s
    decreases |s|
  {
    if s != [] {
      var n := Min(GroupSize, |s|);
      GroupsCons(s);
      GroupsConcat(s[n..]);
      assert s == s[..n] + s[n..];
    }
  }

  datatype Agent = CodeAnalyzer | CodeImprover | PrManager

  /** A task of the plan. `focus` is the optional emphasis the user gave;
      `context` holds the positions of the tasks whose output the task
      reads. */
  datatype Task =
    | Analysis(paths: seq<string>, focus: Option<string>)
    | Improvement(context: nat)
    | PullRequestTask(contexts: seq<nat>)
  {
    function Agent(): Agent {
      match this
      case Analysis(_, _) => CodeAnalyzer
      case Improvement(_) => CodeImprover
      case PullRequestTask(_) => PrManager
    }
  }

  /** `[file.path for file in file_group]` */
  function Paths(group: seq<Entry>): seq<string> {
    seq(|group|, i requires 0 <= i < |group| => group[i].path)
  }

  /** Paths distribute over the cutting into groups. */
  lemma {:induction false} PathsConcat(gs: seq<seq<Entry>>)
    ensures Paths(Concat(gs)) == Concat(seq(|gs|, k requires 0 <= k < |gs| => Paths(gs[k])))
    decreases |gs|
  {
    if gs != [] {
      PathsConcat(gs[1..]);
      var ps := seq(|gs|, k requires 0 <= k < |gs| => Paths(gs[k]));
      assert ps[1..] == seq(|gs| - 1, k requires 0 <= k < |gs| - 1 => Paths(gs[1..][k]));
      assert Paths(gs[0] + Concat(gs[1..])) == Paths(gs[0]) + Paths(Concat(gs[1..]));
    }
  }

  /** The path lists of the analysis tasks, read one after another, are
      the paths of the selected files: every file is analysed, once, in
      the order it was selected. */
  lemma AnalysesCoverFiles(files: seq<Entry>)
    ensures var groups := Groups(files);
      Concat(seq(|groups|, k requires 0 <= k < |groups| => Paths(groups[k]))) == Paths(files)
  {
    GroupsConcat(files);
    PathsConcat(Groups(files));
  }

  /** The focus sentence appears only for a non-empty description. */
  function Focus(description: Option<string>): Option<string> {
    if description.Some? && description.value != "" then description else None
  }

  /** The positions, in order, of the tasks run by `agent`:
      `[task for task in tasks if task.agent == agent]`. */
  function TasksOf(tasks: seq<Task>, agent: Agent): (r: seq<nat>)
    ensures forall i | 0 <= i < |r| :: r[i] < |tasks| && tasks[r[i]].Agent() == agent
    ensures forall i, j | 0 <= i < j < |r| :: r[i] < r[j]
  {
    if tasks == [] then []
    else
      var last := |tasks| - 1;
      TasksOf(tasks[..last], agent) + (if tasks[last].Agent() == agent then [last] else [])
  }

  /** Every task run by `agent` is listed. */
  lemma {:induction false} TasksOfComplete(tasks: seq<Task>, agent: Agent, j: nat)
    requires j < |tasks| && tasks[j].Agent() == agent
    ensures j in TasksOf(tasks, agent)
    decreases |tasks|
  {
    var last := |tasks| - 1;
    if j < last {
      assert tasks[..last][j] == tasks[j];
      TasksOfComplete(tasks[..last], agent, j);
    }
  }

  /** The shape of the plan after `g` groups: analysis at even positions,
      the improvement reading it right after. */
  ghost predicate PairedPlan(tasks: seq<Task>, groups: seq<seq<Entry>>, focus: Option<string>)
  {
    |tasks| == 2 * |groups| &&
    forall k | 0 <= k < |groups| ::
      tasks[2 * k] == Analysis(Paths(groups[k]), focus) && tasks[2 * k + 1] == Improvement(2 * k)
  }

  /** In such a plan the improvement tasks sit at positions 1, 3, 5, ... */
  lemma {:induction false} ImprovementsAreOdd(tasks: seq<Task>, groups: seq<seq<Entry>>, focus: Option<string>)
    requires PairedPlan(tasks, groups, focus)
    ensures TasksOf(tasks, CodeImprover) == seq(|groups|, k requires 0 <= k < |groups| => 2 * k + 1)
    decreases |groups|
  {
    if groups != [] {
      var g := |groups| - 1;
      var shorter := tasks[..2 * g];
      assert PairedPlan(shorter, groups[..g], focus) by {
        forall k | 0 <= k < g
          ensures shorter[2 * k] == Analysis(Paths(groups[..g][k]), focus)
          ensures shorter[2 * k + 1] == Improvement(2 * k)
        {
          assert tasks[2 * k] == Analysis(Paths(groups[k]), focus);
          assert tasks[2 * k + 1] == Improvement(2 * k);
        }
      }
      ImprovementsAreOdd(shorter, groups[..g], focus);
      assert tasks[2 * g] == Analysis(Paths(groups[g]), focus);
      assert tasks[2 * g + 1] == Improvement(2 * g);
      assert tasks[..2 * g + 1][..2 * g] == shorter;
      assert TasksOf(tasks[..2 * g + 1], CodeImprover) == TasksOf(shorter, CodeImprover);
      assert tasks[..|tasks| - 1] == tasks[..2 * g + 1];
    }
  }

  /** In such a plan the analysis tasks sit at positions 0, 2, 4, ... */
  lemma {:induction false} AnalysesAreEven(tasks: seq<Task>, groups: seq<seq<Entry>>, focus: Option<string>)
    requires PairedPlan(tasks, groups, focus)
    ensures TasksOf(tasks, CodeAnalyzer) == seq(|groups|, k requires 0 <= k < |groups| => 2 * k)
    decreases |groups|
  {
    if groups != [] {
      var g := |groups| - 1;
      var shorter := tasks[..2 * g];
      assert PairedPlan(shorter, groups[..g], focus) by {
        forall k | 0 <= k < g
          ensures shorter[2 * k] == Analysis(Paths(groups[..g][k]), focus)
          ensures shorter[2 * k + 1] == Improvement(2 * k)
        {
          assert tasks[2 * k] == Analysis(Paths(groups[k]), focus);
          assert tasks[2 * k + 1] == Improvement(2 * k);
        }
      }
      AnalysesAreEven(shorter, groups[..g], focus);
      assert tasks[2 * g] == Analysis(Paths(groups[g]), focus);
      assert tasks[2 * g + 1] == Improvement(2 * g);
      assert tasks[..2 * g + 1][..2 * g] == shorter;
      assert tasks[..|tasks| - 1] == tasks[..2 * g + 1];
    }
  }

  /** `RepoSage.create_tasks`: 2g + 1 tasks for g groups; per group an
      analysis task of its files, then an improvement task whose one
      context is that analysis; last, the pull-request task whose context
      is every improvement task in order. */
  method CreateTasks(files: seq<Entry>, description: Option<string>) returns (tasks: seq<Task>)
    ensures var groups := Groups(files);
      |tasks| == 2 * |groups| + 1 &&
      (forall k | 0 <= k < |groups| ::
         tasks[2 * k] == Analysis(Paths(groups[k]), Focus(description)) &&
         tasks[2 * k + 1] == Improvement(2 * k)) &&
      tasks[2 * |groups|] ==
        PullRequestTask(seq(|groups|, k requires 0 <= k < |groups| => 2 * k + 1))
  {
    var groups := Groups(files);
    var focus := Focus(description);
    tasks := [];
    var i := 0;
    while i < |groups|
      invariant 0 <= i <= |groups|
      invariant PairedPlan(tasks, groups[..i], focus)
    {
      var analysis := Analysis(Paths(groups[i]), focus);
      tasks := tasks + [analysis];
      tasks := tasks + [Improvement(|tasks| - 1)];
      i := i + 1;
    }
    assert groups[..i] == groups;
    ImprovementsAreOdd(tasks, groups, focus);
    tasks := tasks + [PullRequestTask(TasksOf(tasks, CodeImprover))];
  }
}
