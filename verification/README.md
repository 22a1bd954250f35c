# RepoSage in Dafny

This project models the deterministic core of RepoSage, a GitHub action
that looks for improvements to a repository's code and opens pull requests
for them. The model covers three source files:

- **bot.py, the `RepoSage` bot.** It checks its required inputs and names
  the improvement branch `reposage-improvements-<timestamp>` from the clock.
  It creates that branch at the base branch's commit. It selects the
  repository's files with a FIFO worklist walk over the directory listings.
  It splits the selected files into groups of five and plans an analysis
  task and an improvement task per group, plus one closing pull-request
  task. `run` decides, before any agent starts, whether to stop.
- **repo-sage-action_github_pr.py, the pull-request manager.** It writes
  commit messages (cut to 100 characters), pull-request titles and bodies,
  and per-file branch names built from a path's stem. It commits a changed
  file to a branch. It opens one pull request for all changes, or one per
  file in a loop that skips a file whose steps fail.
- **generate_diff.py, the diff viewer.** Equal contents give a fixed
  message. Otherwise git's output is cleaned line by line, with the
  temporary file names put back to the file's path. Incomplete change
  records are skipped, and explanations are listed with their 1-based
  numbers.

How the modules are laid out:

- **GitHub.** The remote repository is an in-memory object. It holds
  branch references, a commit history of file snapshots, and pull
  requests. Each API call is a method, and an error response is a
  `Failure` that leaves the repository unchanged.
- **FileSelection and Worklist.** A directory listing is a map from a
  directory's path to its entries. The walk is specified generation by
  generation and proved equal to the loop.
- **Branches.** The clock is a `DateTime` parameter.
- **Diff.** The temporary file names and git's exit status and output are
  parameters, supplied per record by the environment.
- **Changes.** A change record is a JSON object whose keys may be missing,
  so each key is an `Option`.
- **Strings and Paths.** Python's `in`, `str.replace`, `split` and `join`
  are in module Strings. `pathlib`'s `name`, `stem` and `suffix` are in
  module Paths.

## Model

| member | source | states |
|---|---|---|
| `FileSelection.FetchRepoFiles` | repo-sage-action/bot.py:155-179 | The files handed back are exactly the breadth-first selection from the root listing. Each one is a file with a supported extension, at most 100 KiB, whose path contains no ignored directory name. |
| `FileSelection.Visit` | repo-sage-action/bot.py:160-174 | One turn on the popped entry. The worklist gains the entry's listing only for a directory that is not ignored. The result gains the entry exactly when it is selected. |
| `FileSelection.SelectionSound` | repo-sage-action/bot.py:166-174 | Every selected entry satisfies the four filters and lies in some generation below the root. |
| `FileSelection.SelectionComplete` | repo-sage-action/bot.py:159-174 | Every entry that satisfies the filters, in any generation below the root, is selected. |
| `FileSelection.RebuildIsDropped` | repo-sage-action/bot.py:166-167 | The ignore test is a substring test, so `src/rebuild.py` is dropped because it contains `build`. |
| `FileSelection.IgnoredNeverExpanded` | repo-sage-action/bot.py:166-170 | A directory with an ignored path is never listed, and an entry with an ignored path is never selected. |
| `Worklist.BreadthFirstSound` | repo-sage-action/bot.py:159-174 | A generic FIFO walk hands back only accepted entries of its generations. |
| `Worklist.BreadthFirstComplete` | repo-sage-action/bot.py:159-174 | A generic FIFO walk hands back every accepted entry of every generation. |
| `Batching.Groups` | repo-sage-action/bot.py:245 | There are ceil(n/5) groups. |
| `Batching.GroupSizes` | repo-sage-action/bot.py:245 | Each group holds 1 to 5 files, and every group but the last holds exactly 5. |
| `Batching.GroupsConcat` | repo-sage-action/bot.py:245 | The groups concatenate back to the file list. |
| `Batching.PathsConcat` | repo-sage-action/bot.py:248 | The paths of concatenated groups are the groups' paths, concatenated. |
| `Batching.AnalysesCoverFiles` | repo-sage-action/bot.py:245-248 | The analysis tasks' path lists, taken in order and concatenated, are exactly the selected files' paths: each file is analysed once, in selection order. |
| `Batching.TasksOf` | repo-sage-action/bot.py:310 | The positions listed are those of tasks of the given agent, in increasing order. |
| `Batching.TasksOfComplete` | repo-sage-action/bot.py:310 | Every task of the agent is listed. |
| `Batching.ImprovementsAreOdd` | repo-sage-action/bot.py:247-296 | In the paired plan the improvement tasks are exactly positions 1, 3, 5, and so on. |
| `Batching.AnalysesAreEven` | repo-sage-action/bot.py:347 | In the paired plan the analysis tasks are exactly positions 0, 2, 4, and so on. |
| `Batching.CreateTasks` | repo-sage-action/bot.py:240-314 | Returns 2g+1 tasks for g groups. Each group gets an analysis of its paths, followed by an improvement task whose one context is that analysis. The final pull-request task has every improvement task as context, in order. |
| `Branches.Digits` | repo-sage-action/bot.py:141 | A zero-padded field has exactly its width and contains only digits. |
| `Branches.DigitsRoundTrip` | repo-sage-action/bot.py:141 | A padded field reads back as its value. |
| `Branches.TimestampRoundTrip` | repo-sage-action/bot.py:141 | For a clock reading from year 1000 to 9999, `%Y%m%d%H%M%S` is 14 digits and parses back to the reading. |
| `Branches.BranchNameInjective` | repo-sage-action/bot.py:141-142 | Runs started at different seconds get different branch names. |
| `Branches.BranchNameShape` | repo-sage-action/bot.py:142 | A branch name is 36 characters: the prefix followed by 14 digits. |
| `Branches.CreateBranch` | repo-sage-action/bot.py:181-190 | Succeeds exactly when the base branch exists and the reference does not. The new reference points at the base branch's commit. On failure nothing changes. |
| `RepoSage.Bot.CreateBranch` | repo-sage-action/bot.py:181-190 | The bot's `create_branch` on its own branch name, with the same contract. |
| `RepoSage.New` | repo-sage-action/bot.py:119-142 | Fails with the missing-input error exactly when the token, repository name or key is empty. Otherwise it returns a bot holding the token, key and model it was given, with the branch named after the clock reading. |
| `RepoSage.Bot.constructor` | repo-sage-action/bot.py:119-142 | Stores the inputs and the branch name `reposage-improvements-<timestamp>`. |
| `RepoSage.Bot.Run` | repo-sage-action/bot.py:316-364 | A dry run creates no branch and leaves the references unchanged. Outside one, the run's branch is created at the base branch's commit and no other reference changes; a failed branch creation ends the run. No selected file ends it before any plan. Otherwise the files are the selection, and the plan is, for each group of five in order, the analysis of that group's paths followed by the improvement task reading it, then the pull-request task reading every improvement. A dry run starts the analysis tasks (positions 0, 2, 4, ...) and a real run starts all tasks. |
| `PrText.CommitMessage` | repo-sage-action/repo-sage-action_github_pr.py:52 | The message is a prefix of `Improve <path>: <summary>` of length min(100, length of that text): the whole text when it fits, exactly its first 100 characters otherwise. |
| `PrText.CommitMessageNamesFile` | repo-sage-action/repo-sage-action_github_pr.py:134 | Truncation keeps `Improve <path>` for paths of up to 90 characters. |
| `PrText.PrTitleInjective` | repo-sage-action/repo-sage-action_github_pr.py:76 | The title determines the file count. |
| `PrText.ChangeLinesNumbered` | repo-sage-action/repo-sage-action_github_pr.py:88-92 | Suggestion k (from 1) with an explanation appears as `**Change k**`. Suggestions without one still use up their number. |
| `PrText.ChangeLinesEmpty` | repo-sage-action/repo-sage-action_github_pr.py:88-92 | The change lines are empty exactly when no suggestion has an explanation. |
| `PrText.SectionsEndWith` | repo-sage-action/repo-sage-action_github_pr.py:85-94 | The last record's heading is in the sections. |
| `PrText.SectionsMentionEveryFile` | repo-sage-action/repo-sage-action_github_pr.py:81-94 | Every record's `## <page> <path>` heading is in the sections. |
| `PrText.BodyMentionsEveryFile` | repo-sage-action/repo-sage-action_github_pr.py:78-94 | The body of the combined pull request names every file. |
| `PrText.ComposeChangeLines` | repo-sage-action/repo-sage-action_github_pr.py:90-92 | The `enumerate(..., 1)` loop produces the numbered change lines. |
| `PrText.ComposeSection` | repo-sage-action/repo-sage-action_github_pr.py:152-159 | The appended pieces form a file's section: heading, summary, and changes only when the key is present. |
| `PrText.ComposeBody` | repo-sage-action/repo-sage-action_github_pr.py:78-94 | A body is produced exactly when every record has `file_path` and `analysis`. It is then the header, the count sentence, and each record's section and rule in input order. |
| `Paths.Name` | repo-sage-action/repo-sage-action_github_pr.py:125 | The final path component contains no `/`. |
| `Paths.StemAndSuffix` | repo-sage-action/repo-sage-action_github_pr.py:125 | Stem followed by suffix is the name. The suffix is empty, or a dot and at least one character, with no dot after it. |
| `Paths.StemShape` | repo-sage-action/repo-sage-action_github_pr.py:125 | A stem contains no `/`, and it is empty only for an empty name. |
| `Paths.StemOfJoined` | repo-sage-action/repo-sage-action_github_pr.py:125 | The stem of `dir/stem.ext` is `stem`. |
| `Paths.FileBranchShape` | repo-sage-action/repo-sage-action_github_pr.py:125 | A file branch is the run's branch, a dash, and one path component. |
| `Paths.SameStemSameBranch` | repo-sage-action/repo-sage-action_github_pr.py:125 | Two files with the same stem in different directories, or with different extensions, get the same branch. |
| `GitHub.HeadRefInjective` | repo-sage-action/repo-sage-action_github_pr.py:38 | Different branches have different references. |
| `GitHub.PullUrlInjective` | repo-sage-action/repo-sage-action_github_pr.py:170 | Different pull-request numbers have different addresses. |
| `GitHub.Repository.GetBranch` | repo-sage-action/repo-sage-action_github_pr.py:37 | Returns the branch's commit, or not found. |
| `GitHub.Repository.CreateGitRef` | repo-sage-action/repo-sage-action_github_pr.py:38 | Adds the reference. It is refused when the reference exists or the commit is unknown. |
| `GitHub.Repository.GetContents` | repo-sage-action/repo-sage-action_github_pr.py:51 | Returns the file on the branch, or not found. |
| `GitHub.Repository.UpdateFile` | repo-sage-action/repo-sage-action_github_pr.py:54-60 | On the current blob, adds a new commit with one file replaced and moves the branch to it. A stale blob is a conflict, and a conflict changes nothing. |
| `GitHub.Repository.CreatePull` | repo-sage-action/repo-sage-action_github_pr.py:97-102 | Opens the next-numbered pull request when both branches exist and differ. Otherwise it is refused and nothing changes. |
| `PullRequests.PrManager.constructor` | repo-sage-action/repo-sage-action_github_pr.py:12-30 | The manager's branch is `reposage-improvements-<timestamp>`. |
| `PullRequests.PrManager.CreateBranch` | repo-sage-action/repo-sage-action_github_pr.py:34-43 | The manager's `create_branch`: true exactly when the base exists and the run's branch does not. The references then gain `refs/heads/<branch>` at the base's commit and nothing else; on false nothing changes. |
| `PullRequests.PrManager.CommitTo` | repo-sage-action/repo-sage-action_github_pr.py:133-142 | Succeeds exactly when the record is complete and the file is on the branch. Exactly one commit is appended: the branch's snapshot with the file replaced by the new content, carrying the truncated message; the branch moves to it. On failure nothing changes. |
| `PullRequests.PrManager.CommitChanges` | repo-sage-action/repo-sage-action_github_pr.py:45-66 | `commit_changes`: `CommitTo` on the run's branch. True only on a successful update, false on any error. |
| `PullRequests.PrManager.CreatePullRequest` | repo-sage-action/repo-sage-action_github_pr.py:68-108 | An empty list gives `None` and leaves the repository unchanged. A pull request is opened exactly when every record has `file_path` and `analysis` and the two branches exist and differ. It carries the title with the count and the composed body. |
| `PullRequests.PrManager.PrepareFileBranch` | repo-sage-action/repo-sage-action_github_pr.py:123-142 | Succeeds exactly when the record is complete, the base exists, the stem branch is new, and the file is on the base. On success exactly one commit is appended, the base's snapshot with the file replaced and the truncated message, and the new file branch points at it. When only the commit fails, the file branch stays at the base's commit. When the branch cannot be made, references and history are unchanged. No other reference moves and no pull request is opened. |
| `PullRequests.PrManager.OpenFilePullRequest` | repo-sage-action/repo-sage-action_github_pr.py:122-170 | For one record, an address comes back exactly when its steps all succeed. It is the address of the one appended pull request, the one the record asks for; otherwise no pull request is added. References and history change as in `PrepareFileBranch`. |
| `PullRequests.PrManager.OpenNext` | repo-sage-action/repo-sage-action_github_pr.py:121-173 | One loop turn on record i: the record is picked exactly when its steps succeed on the repository the turn starts from, and otherwise skipped with the loop going on; the loop's state moves from i to i + 1. |
| `PullRequests.PrManager.Advance` | repo-sage-action/repo-sage-action_github_pr.py:121-173 | One loop turn keeps the invariant, stated on the repository's values before and after. |
| `PullRequests.PrManager.RecordedStep` | repo-sage-action/repo-sage-action_github_pr.py:145-167 | A new pull request is the one its record asks for: title, body, file branch, base. |
| `PullRequests.NumberedStep` | repo-sage-action/repo-sage-action_github_pr.py:170 | The k-th address is that of pull request `first + k + 1`. |
| `PullRequests.BranchedStep` | repo-sage-action/repo-sage-action_github_pr.py:125-129 | The branches of the opened pull requests exist and are pairwise different. |
| `PullRequests.NumberedDistinct` | repo-sage-action/repo-sage-action_github_pr.py:170 | The returned addresses are pairwise different. |
| `PullRequests.PrManager.CreateIndividualPullRequests` | repo-sage-action/repo-sage-action_github_pr.py:110-175 | Failures are skipped and the loop goes on. Record i gets a pull request exactly when its steps succeed on the repository as it was before the loop and no earlier record asked for the same file branch. The addresses returned are those pull requests' addresses, in input order, pairwise different. The references afterwards are the old ones, unmoved, plus the file branches asked for (when the base exists). The history only grows, by exactly one commit per pull request, in order: the base's files with that record's file replaced, under the truncated message. The k-th pull request's branch points at the k-th new commit. Every other branch the loop created stays at the base commit. |
| `PullRequests.PrManager.CreateIndividualPullRequestsAsWritten` | repo-sage-action/repo-sage-action_github_pr.py:172-173 | Raises `KeyError('file_path')` exactly when some record lacks `file_path`. The records before the first such record open exactly what the intended loop opens for them, and those pull requests stay. On either path, the references are the old ones, unmoved, plus the file branches those records asked for. The history grew by one commit per pull request, as in the intended loop. Without such a record the result is the intended loop's addresses. |
| `PullRequests.PrManager.ProposesStep` | repo-sage-action/repo-sage-action_github_pr.py:121-142 | One turn keeps what the loop proposes. A picked record appends its commit, and its new branch points there. A skipped record appends nothing and leaves a branch it created at the base commit. |
| `PullRequests.PrManager.Turn` | repo-sage-action/repo-sage-action_github_pr.py:121-173 | Given what one record's steps did, the loop state (records, progress, proposed commits) moves from record i to i + 1. |
| `PullRequests.PrManager.LoopStart` | repo-sage-action/repo-sage-action_github_pr.py:119 | Before the first record, the loop state holds with nothing picked, made or changed. |
| `PullRequests.PrManager.Reached` | repo-sage-action/repo-sage-action_github_pr.py:121-175 | Wherever the loop stops, before record n, the picks are those among the first n that open. The old branches are unmoved, the file branches of those n records are added, and the history holds the proposed commits. |
| `PullRequests.FirstMissing` | repo-sage-action/repo-sage-action_github_pr.py:123 | The position of the first record without `file_path`: all records before it have the key, and the record there lacks it. |
| `PullRequests.PrManager.FileRefsMembers` | repo-sage-action/repo-sage-action_github_pr.py:125-129 | A reference is among the file branches the records ask for exactly when some record with a `file_path` asks for that branch. |
| `PullRequests.PrManager.OpensAtMeans` | repo-sage-action/repo-sage-action_github_pr.py:121-142 | Record i opens exactly when its steps succeed on the starting repository and no earlier record asks for the same file branch. |
| `PullRequests.PrManager.PicksMembers` | repo-sage-action/repo-sage-action_github_pr.py:121-170 | Among the first n records, k is picked exactly when k < n and record k opens. |
| `PullRequests.PrManager.ProgressStart` | repo-sage-action/repo-sage-action_github_pr.py:119 | Before the loop, nothing is picked and the repository is the starting one. |
| `PullRequests.PrManager.OpensNow` | repo-sage-action/repo-sage-action_github_pr.py:121-142 | Halfway through the loop, record i's steps succeed on the current repository exactly when they would open it judged from the start. |
| `PullRequests.PrManager.Proceed` | repo-sage-action/repo-sage-action_github_pr.py:121-173 | A turn that makes record i's file branch (when it can) and picks it exactly when it opens carries the loop's progress from i to i + 1. |
| `PullRequests.PrManager.Finish` | repo-sage-action/repo-sage-action_github_pr.py:175 | Once every record was tried, the picks are exactly the records that open, and the references are the old ones plus the file branches. |
| `Diff.CleanLineReplaces` | repo-sage-action/generate_diff.py:54-59 | Cleaning a line replaces every occurrence of the original temp name, then of the modified one. The `in` tests only skip work. |
| `Diff.CleanLineUntouched` | repo-sage-action/generate_diff.py:54-59 | A line containing neither temp name is unchanged. |
| `Diff.CleanedKeepsLines` | repo-sage-action/generate_diff.py:51-61 | For a path with no line break, the cleaned output has git's lines, each cleaned, so the line count is the same. |
| `Diff.CleanedUntouched` | repo-sage-action/generate_diff.py:51-61 | Output that never names a temp file comes back unchanged. |
| `Diff.CleanDiff` | repo-sage-action/generate_diff.py:51-61 | The cleaning loop computes the cleaned output. |
| `Diff.AsWrittenRejectsEveryChange` | repo-sage-action/generate_diff.py:48 | As written, different contents always end in `CalledProcessError(1)`. |
| `Diff.DiffShowsEveryChange` | repo-sage-action/generate_diff.py:31-61 | As intended, equal contents give `No changes for <path>` and different ones give the cleaned diff. |
| `Diff.DiffCorrectsOnlyStatusOne` | repo-sage-action/generate_diff.py:48 | The written and intended versions differ exactly on different contents with exit status 1. |
| `Diff.GenerateDiffAsWritten` | repo-sage-action/generate_diff.py:31-61 | The as-written `generate_diff`, running the cleaning loop. |
| `Diff.GenerateDiff` | repo-sage-action/generate_diff.py:31-61 | The intended `generate_diff`, running the cleaning loop. |
| `Diff.Explanations` | repo-sage-action/generate_diff.py:110-113 | Listed numbers lie between 1 and the number of suggestions and strictly increase. |
| `Diff.ExplanationsListed` | repo-sage-action/generate_diff.py:110-113 | `(k, e)` is listed exactly when suggestion k has the non-empty explanation e. |
| `Diff.ListExplanations` | repo-sage-action/generate_diff.py:107-113 | The listing loop computes the numbered explanations. |
| `Diff.Processed` | repo-sage-action/generate_diff.py:77-115 | For either version of `generate_diff` (as written or intended), a non-empty run never reports "no changes" and shows at most one entry per record. |
| `Diff.ProcessedStopsAtError` | repo-sage-action/generate_diff.py:117-119 | The first error ends the run, and later records are not looked at. |
| `Diff.ProcessedReportsAll` | repo-sage-action/generate_diff.py:77-98 | With the intended `generate_diff`, when git behaves as documented, every record gets an entry with its 1-based number. A record is shown exactly when its path and both contents are non-empty, and then with its diff. |
| `Diff.ProcessChangesFile` | repo-sage-action/generate_diff.py:67-119 | The loop, using the as-written or the intended `generate_diff`, computes the run's outcome for that version. An empty list gives "no changes". |
| `Diff.GitReportsPrefix` | repo-sage-action/generate_diff.py:77-98 | Git behaving as documented on all records means it does on every prefix. |
| `Diff.AsWrittenAgrees` | repo-sage-action/generate_diff.py:48 | When no record has two different non-empty contents, the as-written run equals the intended run. |
| `Diff.AsWrittenAbortsAt` | repo-sage-action/generate_diff.py:48 | Up to and including the first record with different contents, the as-written run is the intended run's entries for the records before it, then an abort with `CalledProcessError(1)`. |
| `Diff.AsWrittenAbortsAtFirstChange` | repo-sage-action/generate_diff.py:48 | The whole as-written run aborts with `CalledProcessError(1)` at the first record with different contents, keeping only the intended entries before it. |

## Left out

- Network and transport failures are not modelled. The in-memory repository answers each call from its state, and only the API's own refusals are failures.
- JSON `null` values, records that are not objects, and keys holding non-string values are not modelled. A record's keys are present strings or missing.
- The agents, the crew, the language model and the GitHub tool wrappers (`create_agents`, `kickoff`, `GitHubFileTool`, `GitHubCommitTool`, `GitHubPRTool`) are not modelled. `RepoSage.Bot.Run` ends with the plan and the positions of the tasks started.
- Logging, printing, `output_file`, argparse and `sys.exit` are not modelled. In `Diff`, an `Aborted` outcome stands for the logged error and the exit with status 1.
- The clock (`datetime.now()`), the temporary file names and git's result are parameters, and `os.unlink` is not modelled.
- The two emoji in the pull-request texts are opaque string constants.
- The bot's inputs are strings. `main` declares all three as required, so `None` never reaches the constructor.
- `FileSelection.FetchRepoFiles` requires the listings to be well formed: each child path is longer than its directory's. A listing that led back to itself would make the source loop forever.
- `FileSelection.FetchRepoFiles` does not state that each file appears exactly once. It proves that the result is the breadth-first selection, which contains each qualifying entry of each generation. Uniqueness would need the listings to be disjoint, which the model does not assume.
- `Branches.TimestampRoundTrip` is stated for years 1000 to 9999 only. `Timestamp` pads smaller years to four digits, but `strftime`'s `%Y` does not do so on every platform, and the clock does not produce such years.
- `Paths.StemAndSuffix` covers `/`-separated paths. `pathlib`'s special handling of `.`, `..` and Windows drive letters is not modelled.
- `GitHub.Repository.CreatePull` does not refuse a second open pull request for the same head branch, which GitHub does. It approximates GitHub's "no commits between" refusal by comparing the two branches' commit indices.
- `RepoSage.Bot.Run` takes the repository tree (the directory listings) as a parameter that is not tied to the files of `repo`'s default branch. Selection and branch creation are each modelled, but not their agreement on one repository.

## Findings

| source | as written | input that shows it | evidently intended | confidence | as-written member | corrected member |
|---|---|---|---|---|---|---|
| repo-sage-action/generate_diff.py:48 | `git diff --no-index` is run with `check=True`. The command exits with status 1 whenever the two files differ, so every real diff raises `CalledProcessError`. The run then ends in the outer handler with exit status 1. | original `"a"`, content `"b"`: git exits with 1 | Status 1 means "files differ" and carries the diff. Only a status above 1 is an error. | not executed | `Diff.AsWrittenRejectsEveryChange`, `Diff.AsWrittenAbortsAtFirstChange` | `Diff.DiffShowsEveryChange`, `Diff.ProcessedReportsAll` |
| repo-sage-action/repo-sage-action_github_pr.py:172-173 | The `except` handler reads `file_changes['file_path']` again. For a record without that key, the handler raises a second `KeyError` that nothing catches. The call fails, and the addresses of pull requests already opened are lost. | `[{"content": "x"}]` | The failing record is skipped like any other failure, and the loop continues. | not executed | `PullRequests.PrManager.CreateIndividualPullRequestsAsWritten` | `PullRequests.PrManager.CreateIndividualPullRequests` |
