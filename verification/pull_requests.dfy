/** `GitHubPRManager` in repo-sage-action/repo-sage-action_github_pr.py:
    the improvement branch, one commit per changed file, one pull request
    for all changes, or one branch and pull request per file. Every API
    error and every missing key of a change record is caught and turns
    into `false`, `None` or a skipped record. */
module PullRequests {
  import opened Wrappers
  import opened Strings
  import opened GitHub
  import opened Changes
  import opened PrText
  import opened Paths
  import Branches

  /** A record with every key the single-file steps read. */
  predicate Complete(c: FileChange) {
    c.filePath.Some? && c.content.Some? && c.analysis.Some?
  }

  /** The commit putting the record's new content on top of the files of
      `parent`, with the truncated commit message. */
  function CommitOf(parent: Commit, change: FileChange): Commit
    requires Complete(change)
  {
    var path := change.filePath.value;
    Commit(parent.files[path := change.content.value], CommitMessage(path, change.analysis.value))
  }

  /** The position of the first record without `file_path`, or the
      length of the list when every record has one. */
  function FirstMissing(changes: seq<FileChange>): (r: nat)
    ensures r <= |changes|
    ensures forall j | 0 <= j < r :: changes[j].filePath.Some?
    ensures r < |changes| ==> changes[r].filePath.None?
  {
    if changes == [] || changes[0].filePath.None? then 0 else 1 + FirstMissing(changes[1..])
  }

  /** The exception that escapes the per-file loop as written. */
  datatype Raised = KeyError(key: string)

  /** `urls[k]` is the address of pull request number `first + k + 1`. */
  ghost predicate Numbered(fullName: string, first: nat, urls: seq<string>) {
    forall k | 0 <= k < |urls| :: urls[k] == PullUrl(fullName, first + k + 1)
  }

  lemma NumberedStep(fullName: string, first: nat, urls: seq<string>, url: string)
    requires Numbered(fullName, first, urls) && url == PullUrl(fullName, first + |urls| + 1)
    ensures Numbered(fullName, first, urls + [url])
  {
    var urls' := urls + [url];
    forall k | 0 <= k < |urls'|
      ensures urls'[k] == PullUrl(fullName, first + k + 1)
    {
      if k < |urls| {
        assert urls'[k] == urls[k];
      }
    }
  }

  /** Numbered addresses are pairwise different. */
  lemma NumberedDistinct(fullName: string, first: nat, urls: seq<string>)
    requires Numbered(fullName, first, urls)
    ensures forall j, k | 0 <= j < k < |urls| :: urls[j] != urls[k]
  {
    forall j, k | 0 <= j < k < |urls|
      ensures urls[j] != urls[k]
    {
      if urls[j] == urls[k] {
        PullUrlInjective(fullName, first + j + 1, first + k + 1);
      }
    }
  }

  /** The branches of the pull requests opened exist and are pairwise
      different; the records they come from are in input order. */
  ghost predicate Branched(picked: seq<nat>, made: seq<PullRequest>, refs: map<string, nat>) {
    |picked| == |made| &&
    (forall k | 0 <= k < |made| :: HeadRef(made[k].head) in refs) &&
    (forall j, k | 0 <= j < k < |made| :: picked[j] < picked[k] && made[j].head != made[k].head)
  }

  /** New branches do not disturb what was opened. */
  lemma BranchedGrow(picked: seq<nat>, made: seq<PullRequest>, refs: map<string, nat>, refs': map<string, nat>)
    requires Branched(picked, made, refs)
    requires forall r | r in refs :: r in refs'
    ensures Branched(picked, made, refs')
  {
  }

  /** A pull request on a branch that had to be created extends the list. */
  lemma BranchedStep(picked: seq<nat>, made: seq<PullRequest>, refs: map<string, nat>,
                     refs': map<string, nat>, i: nat, pr: PullRequest)
    requires Branched(picked, made, refs)
    requires forall k | 0 <= k < |picked| :: picked[k] < i
    requires HeadRef(pr.head) !in refs && HeadRef(pr.head) in refs'
    requires forall r | r in refs :: r in refs'
    ensures Branched(picked + [i], made + [pr], refs')
  {
    var picked', made' := picked + [i], made + [pr];
    forall k | 0 <= k < |made'|
      ensures HeadRef(made'[k].head) in refs'
    {
      if k < |made| {
        assert made'[k] == made[k];
      }
    }
    forall j, k | 0 <= j < k < |made'|
      ensures picked'[j] < picked'[k] && made'[j].head != made'[k].head
    {
      assert made'[j] == made[j] && picked'[j] == picked[j];
      if k == |made| {
        assert HeadRef(made[j].head) in refs;
      } else {
        assert made'[k] == made[k] && picked'[k] == picked[k];
      }
    }
  }

  class PrManager {
    /** The repository `get_repo(repo_name)` hands back. */
    const repo: Repository
    const branchName: string
    const baseBranch: string

    /** The branch of this run is named after the clock reading `now`. */
    constructor (repo: Repository, now: Branches.DateTime, baseBranch: string)
      ensures this.repo == repo && this.baseBranch == baseBranch
      ensures branchName == Branches.BranchName(now)
    {
      this.repo := repo;
      this.baseBranch := baseBranch;
      branchName := Branches.BranchName(now);
    }

    /** `create_branch`: the run's branch at the base branch's commit. */
    method CreateBranch() returns (ok: bool)
      requires repo.Valid()
      modifies repo
      ensures repo.Valid()
      ensures ok <==> old(repo.Head(baseBranch)).Some? && HeadRef(branchName) !in old(repo.refs)
      ensures ok ==> repo.refs == old(repo.refs)[HeadRef(branchName) := old(repo.Head(baseBranch)).value]
      ensures ok ==> repo.Head(branchName) == old(repo.Head(baseBranch))
      ensures !ok ==> repo.refs == old(repo.refs)
      ensures repo.commits == old(repo.commits) && repo.pulls == old(repo.pulls)
    {
      ok := Branches.CreateBranch(repo, baseBranch, branchName);
    }

    /** The record's new content committed to `branch` with the truncated
        commit message; `false`, and no change, when a key is missing or the
        file is not on the branch. The steps of `commit_changes`, also taken
        on each file's own branch by `create_individual_pull_requests`. */
    method CommitTo(branch: string, change: FileChange) returns (ok: bool)
      requires repo.Valid()
      modifies repo
      ensures repo.Valid()
      ensures ok <==> Complete(change) && old(repo.FileAt(branch, change.filePath.value)).Some?
      ensures ok ==>
        var path := change.filePath.value;
        repo.commits == old(repo.commits) + [CommitOf(old(repo.commits[repo.Head(branch).value]), change)] &&
        repo.FileAt(branch, path) == Some(change.content.value) &&
        |repo.commits| == |old(repo.commits)| + 1 &&
        repo.commits[|old(repo.commits)|].message == CommitMessage(path, change.analysis.value) &&
        repo.refs == old(repo.refs)[HeadRef(branch) := |old(repo.commits)|] &&
        forall q | q != path :: repo.FileAt(branch, q) == old(repo.FileAt(branch, q))
      ensures !ok ==> repo.refs == old(repo.refs) && repo.commits == old(repo.commits)
      ensures old(repo.commits) <= repo.commits && repo.pulls == old(repo.pulls)
    {
      if change.filePath.None? || change.content.None? {
        return false;
      }
      var path, content := change.filePath.value, change.content.value;
      var file := repo.GetContents(path, branch);
      if file.Failure? {
        return false;
      }
      if change.analysis.None? {
        return false;
      }
      var message := CommitMessage(path, change.analysis.value);
      var updated := repo.UpdateFile(file.value.path, message, content, file.value.sha, branch);
      ok := updated.Success?;
    }

    /** `commit_changes`: the record's new content committed to the run's
        branch. */
    method CommitChanges(change: FileChange) returns (ok: bool)
      requires repo.Valid()
      modifies repo
      ensures repo.Valid()
      ensures ok <==> Complete(change) && old(repo.FileAt(branchName, change.filePath.value)).Some?
      ensures ok ==>
        var path := change.filePath.value;
        repo.commits == old(repo.commits) + [CommitOf(old(repo.commits[repo.Head(branchName).value]), change)] &&
        repo.FileAt(branchName, path) == Some(change.content.value) &&
        |repo.commits| == |old(repo.commits)| + 1 &&
        repo.commits[|old(repo.commits)|].message == CommitMessage(path, change.analysis.value) &&
        repo.refs == old(repo.refs)[HeadRef(branchName) := |old(repo.commits)|] &&
        forall q | q != path :: repo.FileAt(branchName, q) == old(repo.FileAt(branchName, q))
      ensures !ok ==> repo.refs == old(repo.refs) && repo.commits == old(repo.commits)
      ensures repo.pulls == old(repo.pulls)
    {
      ok := CommitTo(branchName, change);
    }

    /** `create_pull_request`: one pull request from the run's branch for
        all changes. An empty list is answered with `None` before any call;
        a record without `file_path` or `analysis`, or a refused request,
        gives `None` too. */
    method CreatePullRequest(changes: seq<FileChange>) returns (pr: Option<PullRequest>)
      requires repo.Valid()
      modifies repo
      ensures repo.Valid()
      ensures changes == [] ==> pr.None? && unchanged(repo)
      ensures pr.Some? <==>
        changes != [] && (forall i | 0 <= i < |changes| :: Describable(changes[i])) &&
        old(repo.Head(branchName)).Some? && old(repo.Head(baseBranch)).Some? &&
        old(repo.Head(branchName)) != old(repo.Head(baseBranch))
      ensures pr.Some? ==>
        pr.value == PullRequest(|old(repo.pulls)| + 1, PrTitle(|changes|), Body(changes),
                                branchName, baseBranch, PullUrl(repo.fullName, |old(repo.pulls)| + 1)) &&
        repo.pulls == old(repo.pulls) + [pr.value]
      ensures pr.None? ==> repo.pulls == old(repo.pulls)
      ensures repo.refs == old(repo.refs) && repo.commits == old(repo.commits)
    {
      if changes == [] {
        return None;
      }
      var title := PrTitle(|changes|);
      var body := ComposeBody(changes);
      if body.None? {
        return None;
      }
      var created := repo.CreatePull(title, body.value, branchName, baseBranch);
      if created.Failure? {
        return None;
      }
      pr := Some(created.value);
    }

    /** The pull request number `n` opened for one record. */
    function FilePull(n: nat, change: FileChange, url: string): PullRequest
      requires Complete(change)
    {
      var path := change.filePath.value;
      PullRequest(n, FileTitle(path), FileBody(path, change.analysis.value),
                  FileBranch(branchName, path), baseBranch, url)
    }

    /** Whether the steps for `change` create its file branch on a
        repository with references `refs`: the record has a path, the base
        branch exists, and the file branch does not yet. */
    ghost predicate MakesBranchIn(refs: map<string, nat>, change: FileChange) {
      change.filePath.Some? && HeadRef(baseBranch) in refs &&
      HeadRef(FileBranch(branchName, change.filePath.value)) !in refs
    }

    /** Whether the single-file steps for `change` all succeed on a
        repository with references `refs` and history `commits`: every key
        present, the base branch there, the file branch not yet there, and
        the file on the base. */
    ghost predicate OpensIn(refs: map<string, nat>, commits: seq<Commit>, change: FileChange) {
      MakesBranchIn(refs, change) && Complete(change) &&
      refs[HeadRef(baseBranch)] < |commits| &&
      change.filePath.value in commits[refs[HeadRef(baseBranch)]].files
    }

    ghost predicate MakesBranch(change: FileChange)
      reads repo
    {
      MakesBranchIn(repo.refs, change)
    }

    ghost predicate Opens(change: FileChange)
      reads repo
    {
      OpensIn(repo.refs, repo.commits, change)
    }

    /** The first steps of the `try` block of
        `create_individual_pull_requests` for one record: its own branch,
        named after the file's stem, at the base commit, and the commit of
        the new content there. A failing step ends the record, and what the
        earlier steps did stays: a branch created before the commit failed
        is left at the base commit. Existing branches never move. */
    method PrepareFileBranch(change: FileChange) returns (ok: bool)
      requires repo.Valid()
      modifies repo
      ensures repo.Valid()
      ensures ok <==> old(Opens(change))
      ensures old(MakesBranch(change)) ==>
        repo.refs == old(repo.refs)[HeadRef(FileBranch(branchName, change.filePath.value)) :=
                                    if ok then |old(repo.commits)| else old(repo.refs)[HeadRef(baseBranch)]]
      ensures !old(MakesBranch(change)) ==> repo.refs == old(repo.refs)
      ensures ok ==> repo.commits == old(repo.commits) + [CommitOf(old(repo.commits[repo.Head(baseBranch).value]), change)]
      ensures !ok ==> repo.commits == old(repo.commits)
      ensures repo.pulls == old(repo.pulls)
    {
      if change.filePath.None? {
        return false;
      }
      var path := change.filePath.value;
      var fileBranch := FileBranch(branchName, path);
      ok := Branches.CreateBranch(repo, baseBranch, fileBranch);
      if !ok {
        return false;
      }
      assert repo.FileAt(fileBranch, path) == old(repo.FileAt(baseBranch, path));
      ok := CommitTo(fileBranch, change);
    }

    /** The whole `try` block for one record: the file branch and commit,
        then the pull request from that branch, whose address is handed
        back. The pull request is never refused once the commit is made,
        since the file branch is then ahead of the base. */
    method OpenFilePullRequest(change: FileChange) returns (url: Option<string>)
      requires repo.Valid()
      modifies repo
      ensures repo.Valid()
      ensures url.Some? <==> old(Opens(change))
      ensures url.Some? ==>
        var n := |old(repo.pulls)| + 1;
        url.value == PullUrl(repo.fullName, n) && repo.pulls == old(repo.pulls) + [FilePull(n, change, url.value)]
      ensures url.None? ==> repo.pulls == old(repo.pulls)
      ensures old(MakesBranch(change)) ==>
        repo.refs == old(repo.refs)[HeadRef(FileBranch(branchName, change.filePath.value)) :=
                                    if url.Some? then |old(repo.commits)| else old(repo.refs)[HeadRef(baseBranch)]]
      ensures !old(MakesBranch(change)) ==> repo.refs == old(repo.refs)
      ensures url.Some? ==>
        repo.commits == old(repo.commits) + [CommitOf(old(repo.commits[repo.Head(baseBranch).value]), change)]
      ensures url.None? ==> repo.commits == old(repo.commits)
    {
      var ok := PrepareFileBranch(change);
      if !ok {
        return None;
      }
      var path, analysis := change.filePath.value, change.analysis.value;
      var fileBranch := FileBranch(branchName, path);
      var section := ComposeSection(path, analysis);
      var body := Header() + "This pull request contains improvements for `" + path + "`.\n\n" + section;
      assert repo.Head(fileBranch) == Some(|repo.commits| - 1) != repo.Head(baseBranch);
      var pr := repo.CreatePull(FileTitle(path), body, fileBranch, baseBranch);
      if pr.Failure? {
        return None;
      }
      url := Some(pr.value.htmlUrl);
    }

    // -------------------------------------------------------------------------
    // Which records the per-file loop opens.

    /** The references of the file branches the records of `s` ask for. */
    function FileRefs(s: seq<FileChange>): set<string> {
      if s == [] then {}
      else
        var last := s[|s| - 1];
        FileRefs(s[..|s| - 1]) + if last.filePath.Some? then {HeadRef(FileBranch(branchName, last.filePath.value))} else {}
    }

    /** The record asks for file branch `b`. */
    predicate AsksFor(c: FileChange, b: string) {
      c.filePath.Some? && FileBranch(branchName, c.filePath.value) == b
    }

    /** A record asking for branch `b` puts `b`'s ref among the file refs. */
    lemma {:induction false} FileRefsHas(s: seq<FileChange>, j: nat, b: string)
      requires j < |s| && AsksFor(s[j], b)
      ensures HeadRef(b) in FileRefs(s)
      decreases |s|
    {
      if j < |s| - 1 {
        FileRefsHas(s[..|s| - 1], j, b);
      }
    }

    /** Every file ref comes from a record asking for that branch. */
    lemma {:induction false} FileRefsFrom(s: seq<FileChange>, b: string) returns (j: nat)
      requires HeadRef(b) in FileRefs(s)
      ensures j < |s| && AsksFor(s[j], b)
      decreases |s|
    {
      var prefix, last := s[..|s| - 1], s[|s| - 1];
      if HeadRef(b) in FileRefs(prefix) {
        j := FileRefsFrom(prefix, b);
        assert prefix[j] == s[j];
      } else {
        HeadRefInjective(FileBranch(branchName, last.filePath.value), b);
        j := |s| - 1;
      }
    }

    lemma FileRefsMembers(s: seq<FileChange>, b: string)
      ensures HeadRef(b) in FileRefs(s) <==> exists j | 0 <= j < |s| :: AsksFor(s[j], b)
    {
      if HeadRef(b) in FileRefs(s) {
        var j := FileRefsFrom(s, b);
      }
      forall j | 0 <= j < |s| && AsksFor(s[j], b)
        ensures HeadRef(b) in FileRefs(s)
      {
        FileRefsHas(s, j, b);
      }
    }

    /** Record `i` gets a pull request from the per-file loop over a
        repository that had references `refs` and history `commits` when
        the loop started: its steps succeed there, and no earlier record
        asked for the same file branch (the first such record created it). */
    ghost predicate OpensAt(refs: map<string, nat>, commits: seq<Commit>, changes: seq<FileChange>, i: nat)
      requires i < |changes|
    {
      OpensIn(refs, commits, changes[i]) &&
      HeadRef(FileBranch(branchName, changes[i].filePath.value)) !in FileRefs(changes[..i])
    }

    lemma OpensAtMeans(refs: map<string, nat>, commits: seq<Commit>, changes: seq<FileChange>, i: nat)
      requires i < |changes|
      ensures OpensAt(refs, commits, changes, i) <==>
        OpensIn(refs, commits, changes[i]) &&
        !exists j | 0 <= j < i :: AsksFor(changes[j], FileBranch(branchName, changes[i].filePath.value))
    {
      if OpensIn(refs, commits, changes[i]) {
        var prefix := changes[..i];
        FileRefsMembers(prefix, FileBranch(branchName, changes[i].filePath.value));
        assert forall j | 0 <= j < i :: prefix[j] == changes[j];
      }
    }

    /** The positions, below `n`, of the records that get a pull request. */
    ghost function Picks(refs: map<string, nat>, commits: seq<Commit>, changes: seq<FileChange>, n: nat): seq<nat>
      requires n <= |changes|
    {
      if n == 0 then []
      else Picks(refs, commits, changes, n - 1) + if OpensAt(refs, commits, changes, n - 1) then [n - 1] else []
    }

    lemma {:induction false} PicksMembers(refs: map<string, nat>, commits: seq<Commit>,
                                          changes: seq<FileChange>, n: nat, k: nat)
      requires n <= |changes|
      ensures k in Picks(refs, commits, changes, n) <==> k < n && OpensAt(refs, commits, changes, k)
    {
      if n > 0 {
        PicksMembers(refs, commits, changes, n - 1, k);
      }
    }

    /** How far the per-file loop is, against the repository it started
        from (`refs0`, `commits0`): the records before `i` have asked for
        their file branches, which exist now if the base does; references
        that existed keep their commits; the history only grew; and the
        records picked are the ones that open. */
    ghost predicate Progress(changes: seq<FileChange>, i: nat, refs0: map<string, nat>, commits0: seq<Commit>,
                             refs: map<string, nat>, commits: seq<Commit>, picked: seq<nat>)
    {
      i <= |changes| &&
      (forall r | r in refs0 :: refs0[r] < |commits0|) &&
      refs.Keys == refs0.Keys + (if HeadRef(baseBranch) in refs0 then FileRefs(changes[..i]) else {}) &&
      (forall r | r in refs0 :: refs[r] == refs0[r]) &&
      commits0 <= commits &&
      picked == Picks(refs0, commits0, changes, i)
    }

    /** The loop starts with nothing done. */
    lemma ProgressStart(changes: seq<FileChange>, refs0: map<string, nat>, commits0: seq<Commit>)
      requires forall r | r in refs0 :: refs0[r] < |commits0|
      ensures Progress(changes, 0, refs0, commits0, refs0, commits0, [])
    {
      assert changes[..0] == [];
    }

    /** Record `i`'s steps succeed on the repository as the loop left it
        exactly when record `i` opens, judged at the start. */
    lemma OpensNow(changes: seq<FileChange>, i: nat, refs0: map<string, nat>, commits0: seq<Commit>,
                   refs: map<string, nat>, commits: seq<Commit>, picked: seq<nat>)
      requires i < |changes| && Progress(changes, i, refs0, commits0, refs, commits, picked)
      ensures OpensIn(refs, commits, changes[i]) <==> OpensAt(refs0, commits0, changes, i)
      ensures MakesBranchIn(refs, changes[i]) <==>
        changes[i].filePath.Some? && HeadRef(baseBranch) in refs0 &&
        HeadRef(FileBranch(branchName, changes[i].filePath.value)) !in refs0.Keys + FileRefs(changes[..i])
    {
      var base := HeadRef(baseBranch);
      if base in refs0 {
        assert base in refs && refs[base] == refs0[base];
        assert commits[refs0[base]] == commits0[refs0[base]];
      }
    }

    /** One turn of the loop keeps its progress: record `i` was picked
        exactly when its steps succeeded, and its file branch was asked for. */
    lemma Proceed(changes: seq<FileChange>, i: nat, refs0: map<string, nat>, commits0: seq<Commit>,
                  refs: map<string, nat>, commits: seq<Commit>, picked: seq<nat>,
                  refs': map<string, nat>, commits': seq<Commit>, picked': seq<nat>, v: nat)
      requires i < |changes| && Progress(changes, i, refs0, commits0, refs, commits, picked)
      requires picked' == if OpensIn(refs, commits, changes[i]) then picked + [i] else picked
      requires MakesBranchIn(refs, changes[i]) ==>
        refs' == refs[HeadRef(FileBranch(branchName, changes[i].filePath.value)) := v]
      requires !MakesBranchIn(refs, changes[i]) ==> refs' == refs
      requires commits <= commits'
      ensures Progress(changes, i + 1, refs0, commits0, refs', commits', picked')
    {
      OpensNow(changes, i, refs0, commits0, refs, commits, picked);
      assert changes[..i + 1][..i] == changes[..i];
      var c := changes[i];
      assert FileRefs(changes[..i + 1]) ==
        FileRefs(changes[..i]) + if c.filePath.Some? then {HeadRef(FileBranch(branchName, c.filePath.value))} else {};
      assert commits0 <= commits';
      forall r | r in refs0
        ensures r in refs' && refs'[r] == refs0[r]
      {
        assert r in refs;
      }
    }

    /** What the per-file loop has done so far: `made[k]` is the pull
        request it opened for record `picked[k]`, numbered `first + k + 1`,
        at address `urls[k]`; the picked records are complete and in input
        order, and their file branches exist and are pairwise different. */
    ghost predicate Opened(changes: seq<FileChange>, picked: seq<nat>, urls: seq<string>,
                           first: nat, made: seq<PullRequest>, refs: map<string, nat>)
    {
      Numbered(repo.fullName, first, urls) && Recorded(changes, picked, urls, first, made) &&
      Branched(picked, made, refs)
    }

    /** The pull request of every picked record is the one its file asks for. */
    ghost predicate Recorded(changes: seq<FileChange>, picked: seq<nat>, urls: seq<string>,
                             first: nat, made: seq<PullRequest>)
    {
      |picked| == |urls| == |made| &&
      forall k | 0 <= k < |made| ::
        picked[k] < |changes| && Complete(changes[picked[k]]) &&
        made[k] == FilePull(first + k + 1, changes[picked[k]], urls[k])
    }

    lemma RecordedStep(changes: seq<FileChange>, picked: seq<nat>, urls: seq<string>, first: nat,
                       made: seq<PullRequest>, i: nat, url: string)
      requires Recorded(changes, picked, urls, first, made)
      requires i < |changes| && Complete(changes[i])
      ensures Recorded(changes, picked + [i], urls + [url], first,
                       made + [FilePull(first + |urls| + 1, changes[i], url)])
    {
      var made' := made + [FilePull(first + |urls| + 1, changes[i], url)];
      var picked', urls' := picked + [i], urls + [url];
      forall k | 0 <= k < |made'|
        ensures picked'[k] < |changes| && Complete(changes[picked'[k]])
        ensures made'[k] == FilePull(first + k + 1, changes[picked'[k]], urls'[k])
      {
        if k < |made| {
          assert made'[k] == made[k] && urls'[k] == urls[k] && picked'[k] == picked[k];
        }
      }
    }

    /** What one turn of the per-file loop makes of the loop state, on the
        repository's values before (`refs`, `pulls`) and after (`refs'`,
        `pulls'`) the turn. */
    lemma Advance(changes: seq<FileChange>, i: nat, pulls0: seq<PullRequest>,
                  refs: map<string, nat>, refs': map<string, nat>,
                  pulls: seq<PullRequest>, pulls': seq<PullRequest>, url: Option<string>,
                  urls: seq<string>, picked: seq<nat>, made: seq<PullRequest>,
                  urls': seq<string>, picked': seq<nat>, made': seq<PullRequest>, v: nat)
      requires i < |changes| && |urls| <= i && forall k | 0 <= k < |picked| :: picked[k] < i
      requires pulls == pulls0 + made && Opened(changes, picked, urls, |pulls0|, made, refs)
      requires MakesBranchIn(refs, changes[i]) ==>
        refs' == refs[HeadRef(FileBranch(branchName, changes[i].filePath.value)) := v]
      requires !MakesBranchIn(refs, changes[i]) ==> refs' == refs
      requires url.None? ==> pulls' == pulls && urls' == urls && picked' == picked && made' == made
      requires url.Some? ==>
        MakesBranchIn(refs, changes[i]) && Complete(changes[i]) && url.value == PullUrl(repo.fullName, |pulls| + 1) &&
        made' == made + [FilePull(|pulls| + 1, changes[i], url.value)] &&
        pulls' == pulls + [made'[|made'| - 1]] &&
        urls' == urls + [url.value] && picked' == picked + [i]
      ensures |urls'| <= i + 1 && forall k | 0 <= k < |picked'| :: picked'[k] < i + 1
      ensures pulls' == pulls0 + made' && Opened(changes, picked', urls', |pulls0|, made', refs')
    {
      if url.None? {
        BranchedGrow(picked, made, refs, refs');
      } else {
        var first := |pulls0|;
        var pr := made'[|made'| - 1];
        NumberedStep(repo.fullName, first, urls, url.value);
        RecordedStep(changes, picked, urls, first, made, i, url.value);
        BranchedStep(picked, made, refs, refs', i, pr);
        AppendAssoc(pulls0, made, [pr]);
      }
    }

    /** What the per-file loop proposes, against the repository it started
        from (`refs0`, `commits0`): the history gained one commit per picked
        record, in order, each the base's files with the record's file
        replaced; the branch of the k-th pull request points at the k-th new
        commit; and every other branch the loop created stayed at the base
        commit, where a failed commit left it. */
    ghost predicate Proposes(changes: seq<FileChange>, picked: seq<nat>, made: seq<PullRequest>,
                             refs0: map<string, nat>, commits0: seq<Commit>,
                             refs: map<string, nat>, commits: seq<Commit>)
    {
      |picked| == |made| &&
      (forall k | 0 <= k < |picked| :: picked[k] < |changes| && Complete(changes[picked[k]])) &&
      (picked != [] ==> HeadRef(baseBranch) in refs0 && refs0[HeadRef(baseBranch)] < |commits0|) &&
      commits0 <= commits && |commits| == |commits0| + |picked| &&
      (forall k | 0 <= k < |picked| ::
         commits[|commits0| + k] == CommitOf(commits0[refs0[HeadRef(baseBranch)]], changes[picked[k]])) &&
      (forall k | 0 <= k < |made| :: HeadRef(made[k].head) in refs && refs[HeadRef(made[k].head)] == |commits0| + k) &&
      (forall r | r in refs && r !in refs0 && HeadRef(baseBranch) in refs0 ::
         refs[r] == refs0[HeadRef(baseBranch)] || exists k | 0 <= k < |made| :: r == HeadRef(made[k].head))
    }

    /** One turn keeps what the loop proposes: a skipped record adds no
        commit and leaves a branch it created at the base commit; a picked
        record adds its commit, and its new branch points at it. */
    lemma ProposesStep(changes: seq<FileChange>, i: nat, refs0: map<string, nat>, commits0: seq<Commit>,
                       refs: map<string, nat>, commits: seq<Commit>, picked: seq<nat>, made: seq<PullRequest>,
                       refs': map<string, nat>, commits': seq<Commit>, picked': seq<nat>, made': seq<PullRequest>,
                       v: nat, took: bool)
      requires i < |changes| && Progress(changes, i, refs0, commits0, refs, commits, picked)
      requires Proposes(changes, picked, made, refs0, commits0, refs, commits)
      requires MakesBranchIn(refs, changes[i]) ==>
        refs' == refs[HeadRef(FileBranch(branchName, changes[i].filePath.value)) := v] &&
        v == (if took then |commits| else refs[HeadRef(baseBranch)])
      requires !MakesBranchIn(refs, changes[i]) ==> refs' == refs
      requires !took ==> commits' == commits && picked' == picked && made' == made
      requires took ==>
        MakesBranchIn(refs, changes[i]) && Complete(changes[i]) &&
        commits' == commits + [CommitOf(commits[refs[HeadRef(baseBranch)]], changes[i])] &&
        picked' == picked + [i] && |made| < |made'| && made' == made + [made'[|made|]] &&
        made'[|made|].head == FileBranch(branchName, changes[i].filePath.value)
      ensures Proposes(changes, picked', made', refs0, commits0, refs', commits')
    {
      var base := HeadRef(baseBranch);
      if MakesBranchIn(refs, changes[i]) {
        var key := HeadRef(FileBranch(branchName, changes[i].filePath.value));
        assert base in refs0;
        assert refs[base] == refs0[base] < |commits0|;
        forall k | 0 <= k < |made'|
          ensures HeadRef(made'[k].head) in refs' && refs'[HeadRef(made'[k].head)] == |commits0| + k
        {
          if k < |made| {
            assert made'[k] == made[k];
          }
        }
        forall r | r in refs' && r !in refs0 && base in refs0
          ensures refs'[r] == refs0[base] || exists k | 0 <= k < |made'| :: r == HeadRef(made'[k].head)
        {
          if r == key {
            if took {
              assert r == HeadRef(made'[|made|].head);
            }
          } else if !(refs[r] == refs0[base]) {
            var k :| 0 <= k < |made| && r == HeadRef(made[k].head);
            assert made'[k] == made[k];
          }
        }
        if took {
          assert commits[refs[base]] == commits0[refs0[base]];
          forall k | 0 <= k < |picked'|
            ensures commits'[|commits0| + k] == CommitOf(commits0[refs0[base]], changes[picked'[k]])
          {
            if k < |picked| {
              assert picked'[k] == picked[k];
            }
          }
        }
      }
    }

    /** What the whole loop has done, once every record was tried. */
    lemma Finish(changes: seq<FileChange>, refs0: map<string, nat>, commits0: seq<Commit>,
                 refs: map<string, nat>, commits: seq<Commit>, picked: seq<nat>)
      requires Progress(changes, |changes|, refs0, commits0, refs, commits, picked)
      ensures picked == Picks(refs0, commits0, changes, |changes|)
      ensures forall i | 0 <= i < |changes| :: i in picked <==> OpensAt(refs0, commits0, changes, i)
      ensures refs.Keys == refs0.Keys + if HeadRef(baseBranch) in refs0 then FileRefs(changes) else {}
      ensures forall r | r in refs0 :: refs[r] == refs0[r]
    {
      assert changes[..|changes|] == changes;
      forall k | 0 <= k < |changes|
        ensures k in picked <==> OpensAt(refs0, commits0, changes, k)
      {
        PicksMembers(refs0, commits0, changes, |changes|, k);
      }
    }

    /** The state of the per-file loop before record `i`, on the
        repository's references, history and pull requests: every pull
        request made so far is recorded against its record, `Progress` holds
        against the starting repository, and `Proposes` says what the new
        branches hold. */
    ghost predicate State(changes: seq<FileChange>, i: nat, pulls0: seq<PullRequest>,
                          refs0: map<string, nat>, commits0: seq<Commit>,
                          urls: seq<string>, picked: seq<nat>, made: seq<PullRequest>,
                          refs: map<string, nat>, commits: seq<Commit>, pulls: seq<PullRequest>)
    {
      i <= |changes| &&
      |urls| <= i && (forall k | 0 <= k < |picked| :: picked[k] < i) &&
      pulls == pulls0 + made &&
      Opened(changes, picked, urls, |pulls0|, made, refs) &&
      Progress(changes, i, refs0, commits0, refs, commits, picked) &&
      Proposes(changes, picked, made, refs0, commits0, refs, commits)
    }

    /** Before the first record nothing is done. */
    lemma LoopStart(changes: seq<FileChange>, pulls0: seq<PullRequest>, refs0: map<string, nat>, commits0: seq<Commit>)
      requires forall r | r in refs0 :: refs0[r] < |commits0|
      ensures State(changes, 0, pulls0, refs0, commits0, [], [], [], refs0, commits0, pulls0)
    {
      ProgressStart(changes, refs0, commits0);
    }

    /** What the loop has done once it stops before record `n`: the records
        picked are the ones that open among the first `n`, the pull requests
        made follow the old ones, the old branches stay where they were and
        the file branches asked for are added, and the history holds what
        `Proposes` says. */
    lemma Reached(changes: seq<FileChange>, n: nat, pulls0: seq<PullRequest>,
                  refs0: map<string, nat>, commits0: seq<Commit>,
                  urls: seq<string>, picked: seq<nat>, made: seq<PullRequest>,
                  refs: map<string, nat>, commits: seq<Commit>, pulls: seq<PullRequest>)
      requires State(changes, n, pulls0, refs0, commits0, urls, picked, made, refs, commits, pulls)
      ensures n <= |changes| && |urls| <= n
      ensures picked == Picks(refs0, commits0, changes, n)
      ensures pulls == pulls0 + made && Opened(changes, picked, urls, |pulls0|, made, refs)
      ensures refs.Keys == refs0.Keys + if HeadRef(baseBranch) in refs0 then FileRefs(changes[..n]) else {}
      ensures forall r | r in refs0 :: refs[r] == refs0[r]
      ensures commits0 <= commits && Proposes(changes, picked, made, refs0, commits0, refs, commits)
    {
    }

    /** The loop state on the repository as it is now. */
    ghost predicate Looping(changes: seq<FileChange>, i: nat, pulls0: seq<PullRequest>,
                            refs0: map<string, nat>, commits0: seq<Commit>,
                            urls: seq<string>, picked: seq<nat>, made: seq<PullRequest>)
      reads repo
    {
      repo.Valid() &&
      State(changes, i, pulls0, refs0, commits0, urls, picked, made, repo.refs, repo.commits, repo.pulls)
    }

    /** One turn of the loop on the repository's values: given what the
        steps for record `i` did (`OpenFilePullRequest`'s contract, from
        `refs`, `commits`, `pulls` to `refs'`, `commits'`, `pulls'`), the
        loop state moves from `i` to `i + 1`. */
    lemma Turn(changes: seq<FileChange>, i: nat, pulls0: seq<PullRequest>,
               refs0: map<string, nat>, commits0: seq<Commit>,
               urls: seq<string>, picked: seq<nat>, made: seq<PullRequest>,
               refs: map<string, nat>, commits: seq<Commit>, pulls: seq<PullRequest>, url: Option<string>,
               refs': map<string, nat>, commits': seq<Commit>, pulls': seq<PullRequest>,
               urls': seq<string>, picked': seq<nat>, made': seq<PullRequest>)
      requires i < |changes| && State(changes, i, pulls0, refs0, commits0, urls, picked, made, refs, commits, pulls)
      requires url.Some? <==> OpensIn(refs, commits, changes[i])
      requires url.Some? ==>
        url.value == PullUrl(repo.fullName, |pulls| + 1) &&
        pulls' == pulls + [FilePull(|pulls| + 1, changes[i], url.value)] &&
        commits' == commits + [CommitOf(commits[refs[HeadRef(baseBranch)]], changes[i])] &&
        urls' == urls + [url.value] && picked' == picked + [i] &&
        made' == made + [FilePull(|pulls| + 1, changes[i], url.value)]
      requires url.None? ==>
        pulls' == pulls && commits' == commits && urls' == urls && picked' == picked && made' == made
      requires MakesBranchIn(refs, changes[i]) ==>
        refs' == refs[HeadRef(FileBranch(branchName, changes[i].filePath.value)) :=
                      if url.Some? then |commits| else refs[HeadRef(baseBranch)]]
      requires !MakesBranchIn(refs, changes[i]) ==> refs' == refs
      ensures State(changes, i + 1, pulls0, refs0, commits0, urls', picked', made', refs', commits', pulls')
    {
      var v: nat := 0;
      if MakesBranchIn(refs, changes[i]) {
        v := if url.Some? then |commits| else refs[HeadRef(baseBranch)];
      }
      Advance(changes, i, pulls0, refs, refs', pulls, pulls', url, urls, picked, made, urls', picked', made', v);
      Proceed(changes, i, refs0, commits0, refs, commits, picked, refs', commits', picked', v);
      ProposesStep(changes, i, refs0, commits0, refs, commits, picked, made,
                   refs', commits', picked', made', v, url.Some?);
    }

    /** One turn of the per-file loop, on record `i`: the record is tried,
        and picked exactly when its steps succeed; the pull requests opened
        so far, `made`, follow the ones that were there before, `pulls0`,
        and the loop's progress against the repository it started from
        (`refs0`, `commits0`) carries over to the next record. */
    method OpenNext(changes: seq<FileChange>, i: nat, ghost pulls0: seq<PullRequest>,
                    ghost refs0: map<string, nat>, ghost commits0: seq<Commit>,
                    urls: seq<string>, ghost picked: seq<nat>, ghost made: seq<PullRequest>)
      returns (urls': seq<string>, ghost picked': seq<nat>, ghost made': seq<PullRequest>)
      requires i < |changes| && Looping(changes, i, pulls0, refs0, commits0, urls, picked, made)
      modifies repo
      ensures picked' == if old(Opens(changes[i])) then picked + [i] else picked
      ensures Looping(changes, i + 1, pulls0, refs0, commits0, urls', picked', made')
    {
      ghost var refs, commits, pulls := repo.refs, repo.commits, repo.pulls;
      var url := OpenFilePullRequest(changes[i]);
      urls', picked', made' := urls, picked, made;
      if url.Some? {
        urls', picked', made' := urls + [url.value], picked + [i], made + [FilePull(|pulls| + 1, changes[i], url.value)];
      }
      Turn(changes, i, pulls0, refs0, commits0, urls, picked, made, refs, commits, pulls, url,
           repo.refs, repo.commits, repo.pulls, urls', picked', made');
    }

    /** `create_individual_pull_requests` as intended: every record is
        tried in turn, a record whose steps fail is skipped and the loop
        goes on. The records that get a pull request are exactly those whose
        steps succeed on the repository as it was, and whose file branch no
        earlier record asked for; the addresses of their pull requests are
        handed back in input order. The file branches asked for now exist
        (if the base does), and existing branches never move. */
    method CreateIndividualPullRequests(changes: seq<FileChange>)
      returns (urls: seq<string>, ghost picked: seq<nat>, ghost made: seq<PullRequest>)
      requires repo.Valid()
      modifies repo
      ensures repo.Valid()
      ensures |urls| <= |changes|
      ensures picked == Picks(old(repo.refs), old(repo.commits), changes, |changes|)
      ensures forall i | 0 <= i < |changes| :: i in picked <==> OpensAt(old(repo.refs), old(repo.commits), changes, i)
      ensures repo.pulls == old(repo.pulls) + made
      ensures Opened(changes, picked, urls, |old(repo.pulls)|, made, repo.refs)
      ensures repo.refs.Keys ==
        old(repo.refs).Keys + if HeadRef(baseBranch) in old(repo.refs) then FileRefs(changes) else {}
      ensures forall r | r in old(repo.refs) :: repo.refs[r] == old(repo.refs)[r]
      ensures old(repo.commits) <= repo.commits
      ensures Proposes(changes, picked, made, old(repo.refs), old(repo.commits), repo.refs, repo.commits)
      ensures forall j, k | 0 <= j < k < |urls| :: urls[j] != urls[k]
    {
      ghost var pulls0, refs0, commits0 := repo.pulls, repo.refs, repo.commits;
      LoopStart(changes, pulls0, refs0, commits0);
      urls, picked, made := [], [], [];
      var i := 0;
      while i < |changes|
        invariant Looping(changes, i, pulls0, refs0, commits0, urls, picked, made)
      {
        urls, picked, made := OpenNext(changes, i, pulls0, refs0, commits0, urls, picked, made);
        i := i + 1;
      }
      Reached(changes, i, pulls0, refs0, commits0, urls, picked, made, repo.refs, repo.commits, repo.pulls);
      Finish(changes, refs0, commits0, repo.refs, repo.commits, picked);
      NumberedDistinct(repo.fullName, |pulls0|, urls);
    }

    /** `create_individual_pull_requests` as written: the `except` handler
        reads `file_changes['file_path']` again to log the failure, so a
        record without that key raises a second `KeyError` that nothing
        catches. The loop ends at the first such record, and the addresses
        gathered (`urls`) are lost; what the records before it opened stays,
        and is what the intended loop opens for them. Without such a record
        the result is the intended loop's. */
    method CreateIndividualPullRequestsAsWritten(changes: seq<FileChange>)
      returns (r: Result<seq<string>, Raised>, ghost urls: seq<string>, ghost picked: seq<nat>,
               ghost made: seq<PullRequest>)
      requires repo.Valid()
      modifies repo
      ensures repo.Valid()
      ensures r.Failure? <==> exists i | 0 <= i < |changes| :: changes[i].filePath.None?
      ensures r.Failure? ==> r.error == KeyError("file_path")
      ensures r.Success? ==> r.value == urls && picked == Picks(old(repo.refs), old(repo.commits), changes, |changes|)
      ensures picked == Picks(old(repo.refs), old(repo.commits), changes, FirstMissing(changes))
      ensures repo.pulls == old(repo.pulls) + made
      ensures Opened(changes, picked, urls, |old(repo.pulls)|, made, repo.refs)
      ensures repo.refs.Keys == old(repo.refs).Keys +
        if HeadRef(baseBranch) in old(repo.refs) then FileRefs(changes[..FirstMissing(changes)]) else {}
      ensures forall r | r in old(repo.refs) :: repo.refs[r] == old(repo.refs)[r]
      ensures old(repo.commits) <= repo.commits
      ensures Proposes(changes, picked, made, old(repo.refs), old(repo.commits), repo.refs, repo.commits)
    {
      ghost var pulls0, refs0, commits0 := repo.pulls, repo.refs, repo.commits;
      LoopStart(changes, pulls0, refs0, commits0);
      urls, picked, made := [], [], [];
      var gathered: seq<string> := [];
      var i := 0;
      while i < |changes|
        invariant Looping(changes, i, pulls0, refs0, commits0, urls, picked, made)
        invariant i <= FirstMissing(changes)
        invariant gathered == urls
      {
        if changes[i].filePath.None? {
          assert FirstMissing(changes) == i;
          Reached(changes, i, pulls0, refs0, commits0, urls, picked, made, repo.refs, repo.commits, repo.pulls);
          return Failure(KeyError("file_path")), urls, picked, made;
        }
        assert i + 1 <= FirstMissing(changes);
        gathered, picked, made := OpenNext(changes, i, pulls0, refs0, commits0, gathered, picked, made);
        urls := gathered;
        i := i + 1;
      }
      assert FirstMissing(changes) == |changes|;
      Reached(changes, i, pulls0, refs0, commits0, urls, picked, made, repo.refs, repo.commits, repo.pulls);
      r := Success(gathered);
    }
  }
}
