/** The `RepoSage` bot of repo-sage-action/bot.py: its construction (input
    validation and the improvement branch's name), the branch creation,
    and the decisions `run` takes before it hands the plan to the agents.
    What the agents do with the plan (the language model, the crew) is not
    part of this model; a run ends here with the plan and the positions of
    the tasks that are started. */
module RepoSage {
  import opened Wrappers
  import opened GitHub
  import opened FileSelection
  import opened Batching
  import Branches

  const DefaultModel: string := "qwen/qwq-32b:free"
  const DefaultBaseBranch: string := "main"

  /** The `ValueError` for a missing required input. */
  datatype InitError = MissingRequiredInput

  /** `all([github_token, repo_name, openrouter_api_key])` */
  predicate InputsPresent(githubToken: string, repoName: string, apiKey: string) {
    githubToken != "" && repoName != "" && apiKey != ""
  }

  /** How a run ends: the branch could not be created, no file was
      selected, or the crew is started on `tasks`, of which the ones at
      positions `started` are run. */
  datatype RunOutcome =
    | BranchFailed
    | NoFiles
    | Started(files: seq<Entry>, tasks: seq<Task>, started: seq<nat>)

  class Bot {
    const githubToken: string
    const repoName: string
    const apiKey: string
    const model: string
    const baseBranch: string
    const description: Option<string>
    /** `reposage-improvements-<timestamp>` */
    const branchName: string
    /** `Github(github_token).get_repo(repo_name)` */
    const repo: Repository

    /** The fields of a validated bot. */
    constructor (githubToken: string, repoName: string, apiKey: string, model: string, baseBranch: string,
                 description: Option<string>, now: Branches.DateTime, repo: Repository)
      requires InputsPresent(githubToken, repoName, apiKey)
      ensures this.githubToken == githubToken && this.repoName == repoName && this.apiKey == apiKey
      ensures this.model == model && this.baseBranch == baseBranch && this.description == description
      ensures this.branchName == Branches.BranchName(now) && this.repo == repo
    {
      this.githubToken := githubToken;
      this.repoName := repoName;
      this.apiKey := apiKey;
      this.model := model;
      this.baseBranch := baseBranch;
      this.description := description;
      this.branchName := Branches.BranchName(now);
      this.repo := repo;
    }

    /** `create_branch`: the improvement branch at the base branch's commit;
        `false` on any error, and then nothing has changed. */
    method CreateBranch() returns (ok: bool)
      requires repo.Valid()
      modifies repo
      ensures repo.Valid()
      ensures ok <==> old(repo.Head(baseBranch)).Some? && HeadRef(branchName) !in old(repo.refs)
      ensures ok ==> repo.refs == old(repo.refs)[HeadRef(branchName) := old(repo.Head(baseBranch)).value]
      ensures ok ==> repo.Head(branchName) == old(repo.Head(baseBranch))
      ensures !ok ==> repo.refs == old(repo.refs)
      ensures repo.commits == old(repo.commits) && repo.pulls == old(repo.pulls)
    {
      ok := Branches.CreateBranch(repo, baseBranch, branchName);
    }

    /** `run` up to the start of the crew, on the repository as its
        contents listings show it (`tree`). Outside a dry run the branch
        comes first and its failure ends the run; a dry run creates no
        branch. No selected file ends the run before any agent is made.
        Otherwise the plan is made from the selected files; a dry run
        starts only its analysis tasks, a real run all of them. */
    method Run(tree: Tree, dryRun: bool) returns (outcome: RunOutcome)
      requires repo.Valid() && WellFormed(tree)
      modifies repo
      ensures repo.Valid()
      ensures outcome.BranchFailed? <==>
        !dryRun && !(old(repo.Head(baseBranch)).Some? && HeadRef(branchName) !in old(repo.refs))
      ensures dryRun || outcome.BranchFailed? ==> repo.refs == old(repo.refs)
      ensures !dryRun && !outcome.BranchFailed? ==>
        repo.refs == old(repo.refs)[HeadRef(branchName) := old(repo.Head(baseBranch)).value]
      ensures repo.commits == old(repo.commits) && repo.pulls == old(repo.pulls)
      ensures outcome.NoFiles? <==> !outcome.BranchFailed? && Selection(tree) == []
      ensures outcome.Started? ==>
        var groups := Groups(outcome.files);
        outcome.files == Selection(tree) && outcome.files != [] &&
        |outcome.tasks| == 2 * |groups| + 1 &&
        PairedPlan(outcome.tasks[..2 * |groups|], groups, Focus(description)) &&
        outcome.tasks[2 * |groups|] == PullRequestTask(seq(|groups|, k requires 0 <= k < |groups| => 2 * k + 1)) &&
        (dryRun ==> outcome.started == seq(|groups|, k requires 0 <= k < |groups| => 2 * k)) &&
        (!dryRun ==> outcome.started == seq(|outcome.tasks|, k requires 0 <= k < |outcome.tasks| => k))
    {
      if !dryRun {
        var ok := CreateBranch();
        if !ok {
          return BranchFailed;
        }
      }
      var files := FetchRepoFiles(tree);
      if files == [] {
        return NoFiles;
      }
      var tasks := CreateTasks(files, description);
      var started;
      if dryRun {
        ghost var groups := Groups(files);
        assert PairedPlan(tasks[..2 * |groups|], groups, Focus(description));
        AnalysesAreEven(tasks[..2 * |groups|], groups, Focus(description));
        assert tasks == tasks[..2 * |groups|] + [tasks[2 * |groups|]];
        started := TasksOf(tasks, CodeAnalyzer);
      } else {
        started := seq(|tasks|, k requires 0 <= k < |tasks| => k);
      }
      outcome := Started(files, tasks, started);
    }
  }

  /** `RepoSage.__init__`: a missing required input raises before anything
      is connected; otherwise the bot is made with its branch name taken
      from the clock reading `now`. */
  method New(githubToken: string, repoName: string, apiKey: string, model: string, baseBranch: string,
             description: Option<string>, now: Branches.DateTime, repo: Repository)
    returns (r: Result<Bot, InitError>)
    ensures r.Failure? <==> !InputsPresent(githubToken, repoName, apiKey)
    ensures r.Failure? ==> r.error == MissingRequiredInput
    ensures r.Success? ==>
      fresh(r.value) && r.value.githubToken == githubToken && r.value.repoName == repoName &&
      r.value.apiKey == apiKey && r.value.model == model && r.value.baseBranch == baseBranch &&
      r.value.description == description && r.value.branchName == Branches.BranchName(now) &&
      r.value.repo == repo
  {
    if !InputsPresent(githubToken, repoName, apiKey) {
      return Failure(MissingRequiredInput);
    }
    var bot := new Bot(githubToken, repoName, apiKey, model, baseBranch, description, now, repo);
    r := Success(bot);
  }
}
