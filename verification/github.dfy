/** The part of a GitHub repository the RepoSage code talks to through
    PyGithub: branch references, a commit history with file snapshots, and
    pull requests. The object stands for the remote repository; each method
    is one API call, and an error response of the API is a `Failure` that
    leaves the repository as it was. */
module GitHub {
  import opened Wrappers
  import opened Strings

  /** A commit: the full file snapshot it records and its message. */
  datatype Commit = Commit(files: map<string, string>, message: string)

  datatype PullRequest = PullRequest(
    number: nat, title: string, body: string, head: string, base: string, htmlUrl: string)

  /** What `get_contents(path, ref=...)` hands back for a file. `sha` is the
      blob identity of the content the handle was read at; it is modelled
      by the content itself (a hash without collisions). */
  datatype FileHandle = FileHandle(path: string, sha: string)

  /** The error responses the calls can produce. */
  datatype ApiError = NotFound | AlreadyExists | Conflict | Unprocessable

  /** The reference a branch is known by. */
  function HeadRef(branch: string): string {
    "refs/heads/" + branch
  }

  function PullUrl(fullName: string, number: nat): string {
    "https://github.com/" + fullName + "/pull/" + NatToString(number)
  }

  lemma HeadRefInjective(a: string, b: string)
    requires HeadRef(a) == HeadRef(b)
    ensures a == b
  {
    assert a == HeadRef(a)[11..];
  }

  /** Pull requests of one repository with different numbers have different
      addresses. */
  lemma PullUrlInjective(fullName: string, n: nat, m: nat)
    requires PullUrl(fullName, n) == PullUrl(fullName, m)
    ensures n == m
  {
    var prefix := "https://github.com/" + fullName + "/pull/";
    assert PullUrl(fullName, n) == prefix + NatToString(n);
    assert NatToString(n) == PullUrl(fullName, n)[|prefix|..];
    assert NatToString(m) == PullUrl(fullName, m)[|prefix|..];
    NatToStringInjective(n, m);
  }

  class Repository {
    /** `owner/repo` */
    const fullName: string
    var refs: map<string, nat>
    var commits: seq<Commit>
    var pulls: seq<PullRequest>

    /** Every reference names a commit of the history, and pull request k
        (counting from 0) has number k + 1. */
    ghost predicate Valid()
      reads this
    {
      (forall r | r in refs :: refs[r] < |commits|) &&
      (forall k | 0 <= k < |pulls| :: pulls[k].number == k + 1)
    }

    /** A repository with one commit holding `files` on `defaultBranch`. */
    constructor (fullName: string, defaultBranch: string, files: map<string, string>)
      ensures Valid()
      ensures this.fullName == fullName
      ensures refs == map[HeadRef(defaultBranch) := 0]
      ensures commits == [Commit(files, "Initial commit")] && pulls == []
    {
      this.fullName := fullName;
      refs := map[HeadRef(defaultBranch) := 0];
      commits := [Commit(files, "Initial commit")];
      pulls := [];
    }

    /** The commit a branch points at, if the branch exists. */
    function Head(branch: string): (r: Option<nat>)
      reads this
      requires Valid()
      ensures r.Some? <==> HeadRef(branch) in refs
      ensures r.Some? ==> r.value < |commits|
    {
      if HeadRef(branch) in refs then Some(refs[HeadRef(branch)]) else None
    }

    /** The content of `path` on `branch`, if both exist. */
    function FileAt(branch: string, path: string): (r: Option<string>)
      reads this
      requires Valid()
      ensures r.Some? ==> Head(branch).Some? && path in commits[Head(branch).value].files
      ensures r.Some? ==> r.value == commits[Head(branch).value].files[path]
      ensures Head(branch).Some? && path in commits[Head(branch).value].files ==> r.Some?
    {
      match Head(branch)
      case None => None
      case Some(c) => if path in commits[c].files then Some(commits[c].files[path]) else None
    }

    /** `get_branch(name).commit.sha`: the branch's commit, or 404. */
    method GetBranch(name: string) returns (r: Result<nat, ApiError>)
      requires Valid()
      ensures r.Success? <==> Head(name).Some?
      ensures r.Success? ==> r.value == Head(name).value && r.value < |commits|
      ensures r.Failure? ==> r.error == NotFound
    {
      var head := Head(name);
      if head.Some? {
        r := Success(head.value);
      } else {
        r := Failure(NotFound);
      }
    }

    /** `create_git_ref(ref, sha)`: refused with 422 when the reference
        exists already or the commit is unknown. */
    method CreateGitRef(ref: string, sha: nat) returns (r: Result<(), ApiError>)
      requires Valid()
      modifies this
      ensures Valid()
      ensures r.Success? <==> ref !in old(refs) && sha < |old(commits)|
      ensures refs == if r.Success? then old(refs)[ref := sha] else old(refs)
      ensures commits == old(commits) && pulls == old(pulls)
    {
      if ref in refs {
        r := Failure(AlreadyExists);
      } else if sha >= |commits| {
        r := Failure(Unprocessable);
      } else {
        refs := refs[ref := sha];
        r := Success(());
      }
    }

    /** `get_contents(path, ref=branch)` on a file. */
    method GetContents(path: string, branch: string) returns (r: Result<FileHandle, ApiError>)
      requires Valid()
      ensures r.Success? <==> FileAt(branch, path).Some?
      ensures r.Success? ==> r.value == FileHandle(path, FileAt(branch, path).value)
      ensures r.Failure? ==> r.error == NotFound
    {
      var content := FileAt(branch, path);
      if content.Some? {
        r := Success(FileHandle(path, content.value));
      } else {
        r := Failure(NotFound);
      }
    }

    /** `update_file(path, message, content, sha, branch=branch)`: a new
        commit on the branch replacing one existing file. A `sha` that is not
        the file's current blob is a 409 conflict. */
    method UpdateFile(path: string, message: string, content: string, sha: string, branch: string)
      returns (r: Result<(), ApiError>)
      requires Valid()
      modifies this
      ensures Valid()
      ensures r.Success? <==> old(FileAt(branch, path)) == Some(sha)
      ensures r.Success? ==>
        commits == old(commits) + [Commit(old(commits[Head(branch).value].files)[path := content], message)] &&
        refs == old(refs)[HeadRef(branch) := |old(commits)|]
      ensures r.Failure? ==> commits == old(commits) && refs == old(refs)
      ensures pulls == old(pulls)
    {
      var current := FileAt(branch, path);
      if current.None? {
        r := Failure(NotFound);
      } else if current.value != sha {
        r := Failure(Conflict);
      } else {
        var head := refs[HeadRef(branch)];
        commits := commits + [Commit(commits[head].files[path := content], message)];
        refs := refs[HeadRef(branch) := |commits| - 1];
        r := Success(());
      }
    }

    /** `create_pull(title, body, head, base)`: refused with 422 when a
        branch is missing or the head branch has nothing the base lacks
        (both point at the same commit). The new pull request gets the next
        number. */
    method CreatePull(title: string, body: string, head: string, base: string)
      returns (r: Result<PullRequest, ApiError>)
      requires Valid()
      modifies this
      ensures Valid()
      ensures r.Success? <==>
        old(Head(head)).Some? && old(Head(base)).Some? && old(Head(head)) != old(Head(base))
      ensures r.Success? ==>
        r.value == PullRequest(|old(pulls)| + 1, title, body, head, base,
                               PullUrl(fullName, |old(pulls)| + 1)) &&
        pulls == old(pulls) + [r.value]
      ensures r.Failure? ==> pulls == old(pulls)
      ensures refs == old(refs) && commits == old(commits)
    {
      var h, b := Head(head), Head(base);
      if h.None? || b.None? || h == b {
        r := Failure(Unprocessable);
      } else {
        var number := |pulls| + 1;
        var pr := PullRequest(number, title, body, head, base, PullUrl(fullName, number));
        pulls := pulls + [pr];
        r := Success(pr);
      }
    }
  }
}
