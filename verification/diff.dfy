/** The diff viewer: for every change record it shows a unified diff of
    the original and the new content, made by `git diff --no-index` on two
    temporary files, with the temporary file names put back to the file's
    own path, followed by the record's summary and explanations.

    The temporary file names and what git reports are supplied by the
    environment: they are parameters here. What is printed is modelled as
    the list of entries the viewer shows, one per record. */
module Diff {
  import opened Wrappers
  import opened Strings
  import opened Changes

  /** A temporary file name as the system hands it out: never empty. */
  type TempName = s: string | |s| > 0 witness "t"

  /** The two temporary files holding the original and the new content. */
  datatype TempFiles = TempFiles(original: TempName, modified: TempName)

  /** What `git diff --no-index` reported: its exit status and its output. */
  datatype GitRun = GitRun(status: nat, stdout: string)

  /** What the environment gives the viewer for one record. */
  datatype Tools = Tools(temps: TempFiles, git: GitRun)

  /** `subprocess.CalledProcessError`, raised by `check=True`. */
  datatype DiffError = CalledProcessError(status: nat)

  /** git's documented behaviour for `--no-index`: exit status 0 when the
      two files are the same and 1 when they differ. */
  predicate GitReports(git: GitRun, original: string, modified: string) {
    git.status == if original == modified then 0 else 1
  }

  // ---------------------------------------------------------------------------
  // Cleaning git's output.

  /** One output line with the temporary names replaced by `a/<path>` and
      `b/<path>`, each replacement done only when the name occurs. */
  function CleanLine(line: string, temps: TempFiles, path: string): string {
    var first := if Contains(line, temps.original) then ReplaceAll(line, temps.original, "a/" + path) else line;
    if Contains(first, temps.modified) then ReplaceAll(first, temps.modified, "b/" + path) else first
  }

  function CleanLines(lines: seq<string>, temps: TempFiles, path: string): (r: seq<string>)
    ensures |r| == |lines| && forall i | 0 <= i < |r| :: r[i] == CleanLine(lines[i], temps, path)
  {
    seq(|lines|, i requires 0 <= i < |lines| => CleanLine(lines[i], temps, path))
  }

  /** `'\n'.join(clean_diff)` for the cleaned lines of `stdout.split('\n')`. */
  function Cleaned(stdout: string, temps: TempFiles, path: string): string {
    Join(CleanLines(Split(stdout, '\n'), temps, path), '\n')
  }

  /** The `in` tests only save work: cleaning a line is replacing both
      names unconditionally. */
  lemma CleanLineReplaces(line: string, temps: TempFiles, path: string)
    ensures CleanLine(line, temps, path) ==
      ReplaceAll(ReplaceAll(line, temps.original, "a/" + path), temps.modified, "b/" + path)
  {
    if !Contains(line, temps.original) {
      ReplaceAbsent(line, temps.original, "a/" + path);
    }
    var first := ReplaceAll(line, temps.original, "a/" + path);
    if !Contains(first, temps.modified) {
      ReplaceAbsent(first, temps.modified, "b/" + path);
    }
  }

  /** A line naming neither temporary file is left as it is. */
  lemma CleanLineUntouched(line: string, temps: TempFiles, path: string)
    requires !Contains(line, temps.original) && !Contains(line, temps.modified)
    ensures CleanLine(line, temps, path) == line
  {
  }

  /** Cleaning never splits or merges lines when the path has no line
      break: the cleaned output has the same lines, each one cleaned. */
  lemma CleanedKeepsLines(stdout: string, temps: TempFiles, path: string)
    requires '\n' !in path
    ensures Split(Cleaned(stdout, temps, path), '\n') == CleanLines(Split(stdout, '\n'), temps, path)
  {
    var lines := CleanLines(Split(stdout, '\n'), temps, path);
    forall i | 0 <= i < |lines|
      ensures '\n' !in lines[i]
    {
      var line := Split(stdout, '\n')[i];
      CleanLineReplaces(line, temps, path);
      ReplaceKeepsOut(line, temps.original, "a/" + path, '\n');
      ReplaceKeepsOut(ReplaceAll(line, temps.original, "a/" + path), temps.modified, "b/" + path, '\n');
    }
    SplitJoin(lines, '\n');
  }

  /** Output that never names a temporary file comes back unchanged. */
  lemma CleanedUntouched(stdout: string, temps: TempFiles, path: string)
    requires forall line | line in Split(stdout, '\n') ::
      !Contains(line, temps.original) && !Contains(line, temps.modified)
    ensures Cleaned(stdout, temps, path) == stdout
  {
    var lines := Split(stdout, '\n');
    assert CleanLines(lines, temps, path) == lines;
    JoinSplit(stdout, '\n');
  }

  /** The cleaning loop of `generate_diff`. */
  method CleanDiff(stdout: string, temps: TempFiles, path: string) returns (text: string)
    ensures text == Cleaned(stdout, temps, path)
  {
    var diffLines := Split(stdout, '\n');
    var cleanDiff: seq<string> := [];
    for i := 0 to |diffLines|
      invariant cleanDiff == CleanLines(diffLines[..i], temps, path)
    {
      var line := diffLines[i];
      if Contains(line, temps.original) {
        line := ReplaceAll(line, temps.original, "a/" + path);
      }
      if Contains(line, temps.modified) {
        line := ReplaceAll(line, temps.modified, "b/" + path);
      }
      cleanDiff := cleanDiff + [line];
    }
    assert diffLines[..|diffLines|] == diffLines;
    text := Join(cleanDiff, '\n');
  }

  // ---------------------------------------------------------------------------
  // `generate_diff`.

  const NoChangesPrefix: string := "No changes for "

  /** `generate_diff` as written: `check=True` turns every non-zero exit
      status into an exception. */
  function DiffAsWritten(original: string, modified: string, path: string, tools: Tools): Result<string, DiffError> {
    if original == modified then Success(NoChangesPrefix + path)
    else if tools.git.status != 0 then Failure(CalledProcessError(tools.git.status))
    else Success(Cleaned(tools.git.stdout, tools.temps, path))
  }

  /** `generate_diff` as intended: exit status 1 means "the files differ"
      and carries the diff; only a status above 1 is an error. */
  function Diff(original: string, modified: string, path: string, tools: Tools): Result<string, DiffError> {
    if original == modified then Success(NoChangesPrefix + path)
    else if tools.git.status > 1 then Failure(CalledProcessError(tools.git.status))
    else Success(Cleaned(tools.git.stdout, tools.temps, path))
  }

  /** As written, no diff is ever shown: git is only run on different
      contents, and then it exits with 1, which `check=True` raises. */
  lemma AsWrittenRejectsEveryChange(original: string, modified: string, path: string, tools: Tools)
    requires original != modified && GitReports(tools.git, original, modified)
    ensures DiffAsWritten(original, modified, path, tools) == Failure(CalledProcessError(1))
  {
  }

  /** As intended, two different contents always get their cleaned diff,
      and equal ones the "No changes" line. */
  lemma DiffShowsEveryChange(original: string, modified: string, path: string, tools: Tools)
    requires GitReports(tools.git, original, modified)
    ensures Diff(original, modified, path, tools).Success?
    ensures original == modified ==> Diff(original, modified, path, tools).value == NoChangesPrefix + path
    ensures original != modified ==>
      Diff(original, modified, path, tools).value == Cleaned(tools.git.stdout, tools.temps, path)
  {
  }

  /** The two differ only on exit status 1: errors of git itself (a status
      above 1) fail both, and a status of 0 succeeds in both. */
  lemma DiffCorrectsOnlyStatusOne(original: string, modified: string, path: string, tools: Tools)
    ensures DiffAsWritten(original, modified, path, tools) != Diff(original, modified, path, tools) <==>
      original != modified && tools.git.status == 1
  {
  }

  /** Which `generate_diff` a run uses: the code as written, or the code
      with git's exit status read as intended. */
  datatype Version = AsWritten | Intended

  function DiffOf(v: Version, original: string, modified: string, path: string, tools: Tools): Result<string, DiffError> {
    match v
    case AsWritten => DiffAsWritten(original, modified, path, tools)
    case Intended => Diff(original, modified, path, tools)
  }

  /** `generate_diff` as written, running the cleaning loop. */
  method GenerateDiffAsWritten(original: string, modified: string, path: string, tools: Tools)
    returns (r: Result<string, DiffError>)
    ensures r == DiffAsWritten(original, modified, path, tools)
  {
    if original == modified {
      return Success(NoChangesPrefix + path);
    }
    if tools.git.status != 0 {
      return Failure(CalledProcessError(tools.git.status));
    }
    var text := CleanDiff(tools.git.stdout, tools.temps, path);
    r := Success(text);
  }

  /** `generate_diff` as intended, running the cleaning loop. */
  method GenerateDiff(original: string, modified: string, path: string, tools: Tools)
    returns (r: Result<string, DiffError>)
    ensures r == Diff(original, modified, path, tools)
  {
    if original == modified {
      return Success(NoChangesPrefix + path);
    }
    if tools.git.status > 1 {
      return Failure(CalledProcessError(tools.git.status));
    }
    var text := CleanDiff(tools.git.stdout, tools.temps, path);
    r := Success(text);
  }

  // ---------------------------------------------------------------------------
  // The explanations of a record.

  /** Line `  <number>. <explanation>` of the detailed changes. */
  datatype Detail = Detail(number: nat, explanation: string)

  /** The numbered explanations: suggestions are counted from 1, and
      those without a non-empty explanation are counted but not listed. */
  function Explanations(s: seq<Suggestion>): (r: seq<Detail>)
    ensures forall k | 0 <= k < |r| :: 1 <= r[k].number <= |s|
    ensures forall j, k | 0 <= j < k < |r| :: r[j].number < r[k].number
  {
    if s == [] then []
    else
      var last := s[|s| - 1];
      Explanations(s[..|s| - 1]) + (if Truthy(last.explanation) then [Detail(|s|, last.explanation.value)] else [])
  }

  /** An explanation is listed, under its suggestion's number, exactly when
      that suggestion has a non-empty one. */
  lemma {:induction false} ExplanationsListed(s: seq<Suggestion>, d: Detail)
    ensures d in Explanations(s) <==>
      1 <= d.number <= |s| && s[d.number - 1].explanation == Some(d.explanation) && d.explanation != ""
    decreases |s|
  {
    if s != [] {
      var prefix := s[..|s| - 1];
      ExplanationsListed(prefix, d);
      if 1 <= d.number < |s| {
        assert prefix[d.number - 1] == s[d.number - 1];
      }
    }
  }

  /** The `for i, suggestion in enumerate(suggested_changes, 1)` loop. */
  method ListExplanations(s: seq<Suggestion>) returns (details: seq<Detail>)
    ensures details == Explanations(s)
  {
    details := [];
    var i := 0;
    while i < |s|
      invariant 0 <= i <= |s| && details == Explanations(s[..i])
    {
      var explanation := s[i].explanation;
      if explanation.Some? && explanation.value != "" {
        details := details + [Detail(i + 1, explanation.value)];
      }
      assert s[..i + 1][..i] == s[..i];
      i := i + 1;
    }
    assert s[..i] == s;
  }

  // ---------------------------------------------------------------------------
  // `process_changes_file`.

  /** Why a record is skipped: the first of its required keys that is
      missing or empty. */
  datatype Missing = MissingFilePath | MissingOriginalContent | MissingContent

  /** What the viewer shows for one record, `index` counting from 1. The
      summary is shown only when non-empty; `details` is present exactly
      when the record has a non-empty list of suggested changes. */
  datatype Entry =
    | Skipped(index: nat, missing: Missing)
    | Shown(index: nat, path: string, diff: string, summary: Option<string>, details: Option<seq<Detail>>)

  /** The end of a run: nothing to do, every record handled, or an
      exception that ended the run (and the program, with status 1) after
      the entries shown so far. */
  datatype Outcome =
    | NoChanges
    | Reported(entries: seq<Entry>)
    | Aborted(entries: seq<Entry>, error: DiffError)

  /** `change.get('analysis', {})` */
  function AnalysisOf(change: FileChange): Analysis {
    change.analysis.GetOr(Analysis(None, None))
  }

  /** The detailed-changes part: present for a non-empty list. */
  function DetailsOf(a: Analysis): Option<seq<Detail>> {
    if a.suggestedChanges.Some? && a.suggestedChanges.value != [] then Some(Explanations(a.suggestedChanges.value))
    else None
  }

  /** What the viewer makes of record number `index`. */
  function EntryOf(v: Version, index: nat, change: FileChange, tools: Tools): Result<Entry, DiffError> {
    if !Truthy(change.filePath) then Success(Skipped(index, MissingFilePath))
    else if !Truthy(change.originalContent) then Success(Skipped(index, MissingOriginalContent))
    else if !Truthy(change.content) then Success(Skipped(index, MissingContent))
    else
      var path, a := change.filePath.value, AnalysisOf(change);
      match DiffOf(v, change.originalContent.value, change.content.value, path, tools)
      case Failure(e) => Failure(e)
      case Success(d) => Success(Shown(index, path, d, if Truthy(a.summary) then a.summary else None, DetailsOf(a)))
  }

  /** The records handled in order, `env(k)` serving record k; the first
      error ends the run. */
  function Processed(v: Version, changes: seq<FileChange>, env: nat -> Tools): (r: Outcome)
    ensures !r.NoChanges?
    ensures |r.entries| <= |changes|
  {
    if changes == [] then Reported([])
    else
      var n := |changes|;
      var before := Processed(v, changes[..n - 1], env);
      if before.Aborted? then before
      else
        match EntryOf(v, n, changes[n - 1], env(n))
        case Failure(e) => Aborted(before.entries, e)
        case Success(entry) => Reported(before.entries + [entry])
  }

  /** `process_changes_file` on the loaded list. */
  function Process(v: Version, changes: seq<FileChange>, env: nat -> Tools): Outcome {
    if changes == [] then NoChanges else Processed(v, changes, env)
  }

  /** The first error ends the run: what follows is not looked at. */
  lemma {:induction false} ProcessedStopsAtError(v: Version, changes: seq<FileChange>, m: nat, env: nat -> Tools)
    requires m <= |changes| && Processed(v, changes[..m], env).Aborted?
    ensures Processed(v, changes, env) == Processed(v, changes[..m], env)
    decreases |changes|
  {
    if m < |changes| {
      var n := |changes|;
      assert changes[..n - 1][..m] == changes[..m];
      ProcessedStopsAtError(v, changes[..n - 1], m, env);
    } else {
      assert changes[..m] == changes;
    }
  }

  /** A record with its three keys filled is shown: they are what the
      viewer checks, in this order. */
  predicate Showable(change: FileChange) {
    Truthy(change.filePath) && Truthy(change.originalContent) && Truthy(change.content)
  }

  /** Git behaves as documented for every record of a run. */
  predicate GitReportsAll(changes: seq<FileChange>, env: nat -> Tools) {
    forall k | 1 <= k <= |changes| ::
      GitReports(env(k).git, changes[k - 1].originalContent.GetOr(""), changes[k - 1].content.GetOr(""))
  }

  /** With the intended `generate_diff`, and git behaving as documented,
      the run handles every record: entry k is record k + 1's, shown
      exactly when the record is showable, and then with its diff. */
  lemma {:induction false} ProcessedReportsAll(changes: seq<FileChange>, env: nat -> Tools)
    requires GitReportsAll(changes, env)
    ensures Processed(Intended, changes, env).Reported?
    ensures var entries := Processed(Intended, changes, env).entries;
      |entries| == |changes| &&
      forall k | 0 <= k < |entries| ::
        entries[k].index == k + 1 && (entries[k].Shown? <==> Showable(changes[k])) &&
        (entries[k].Shown? ==>
           entries[k].path == changes[k].filePath.value &&
           Diff(changes[k].originalContent.value, changes[k].content.value, entries[k].path, env(k + 1)) ==
             Success(entries[k].diff))
    decreases |changes|
  {
    if changes != [] {
      var n := |changes|;
      var prefix := changes[..n - 1];
      GitReportsPrefix(changes, n - 1, env);
      ProcessedReportsAll(prefix, env);
      var c := changes[n - 1];
      if Showable(c) {
        DiffShowsEveryChange(c.originalContent.value, c.content.value, c.filePath.value, env(n));
      }
      var entries := Processed(Intended, changes, env).entries;
      forall k | 0 <= k < n - 1
        ensures entries[k] == Processed(Intended, prefix, env).entries[k] && changes[k] == prefix[k]
      {
      }
    }
  }

  lemma GitReportsPrefix(changes: seq<FileChange>, m: nat, env: nat -> Tools)
    requires m <= |changes| && GitReportsAll(changes, env)
    ensures GitReportsAll(changes[..m], env)
  {
    forall k | 1 <= k <= m
      ensures GitReports(env(k).git, changes[..m][k - 1].originalContent.GetOr(""), changes[..m][k - 1].content.GetOr(""))
    {
      assert changes[..m][k - 1] == changes[k - 1];
    }
  }

  /** A record whose diff git is actually asked for: showable, with
      different contents. */
  predicate Differs(change: FileChange) {
    Showable(change) && change.originalContent.value != change.content.value
  }

  /** As written, a run in which no record differs goes exactly as the
      intended one: every record gets "No changes" or is skipped. */
  lemma {:induction false} AsWrittenAgrees(changes: seq<FileChange>, env: nat -> Tools)
    requires forall k | 0 <= k < |changes| :: !Differs(changes[k])
    ensures Processed(AsWritten, changes, env) == Processed(Intended, changes, env)
    decreases |changes|
  {
    if changes != [] {
      var n := |changes|;
      var prefix := changes[..n - 1];
      assert forall k | 0 <= k < |prefix| :: prefix[k] == changes[k];
      AsWrittenAgrees(prefix, env);
      assert !Differs(changes[n - 1]);
    }
  }

  /** The record that differs first ends the as-written run there. */
  lemma AsWrittenAbortsAt(changes: seq<FileChange>, env: nat -> Tools, m: nat)
    requires GitReportsAll(changes, env)
    requires m < |changes| && Differs(changes[m])
    requires forall k | 0 <= k < m :: !Differs(changes[k])
    ensures Processed(AsWritten, changes[..m + 1], env) ==
      Aborted(Processed(Intended, changes[..m], env).entries, CalledProcessError(1))
  {
    var prefix, c := changes[..m], changes[m];
    assert Processed(AsWritten, prefix, env) == Processed(Intended, prefix, env) by {
      assert forall k | 0 <= k < m :: prefix[k] == changes[k];
      AsWrittenAgrees(prefix, env);
    }
    assert Processed(Intended, prefix, env).Reported? by {
      GitReportsPrefix(changes, m, env);
      ProcessedReportsAll(prefix, env);
    }
    assert EntryOf(AsWritten, m + 1, c, env(m + 1)) == Failure(CalledProcessError(1)) by {
      assert GitReports(env(m + 1).git, c.originalContent.GetOr(""), c.content.GetOr(""));
      AsWrittenRejectsEveryChange(c.originalContent.value, c.content.value, c.filePath.value, env(m + 1));
    }
    var upto := changes[..m + 1];
    assert upto[..m] == prefix && upto[m] == c;
  }

  /** As written, with git behaving as documented, the first record whose
      contents differ ends the run with `CalledProcessError(1)`: only the
      entries of the records before it are shown, as the intended run
      shows them, and nothing after it is looked at. */
  lemma AsWrittenAbortsAtFirstChange(changes: seq<FileChange>, env: nat -> Tools, m: nat)
    requires GitReportsAll(changes, env)
    requires m < |changes| && Differs(changes[m])
    requires forall k | 0 <= k < m :: !Differs(changes[k])
    ensures Processed(AsWritten, changes, env) ==
      Aborted(Processed(Intended, changes[..m], env).entries, CalledProcessError(1))
  {
    AsWrittenAbortsAt(changes, env, m);
    ProcessedStopsAtError(AsWritten, changes, m + 1, env);
  }

  /** The loop of `process_changes_file`, running the given version of
      `generate_diff`. */
  method ProcessChangesFile(v: Version, changes: seq<FileChange>, env: nat -> Tools) returns (outcome: Outcome)
    ensures outcome == Process(v, changes, env)
  {
    if changes == [] {
      return NoChanges;
    }
    var entries: seq<Entry> := [];
    var idx := 1;
    while idx <= |changes|
      invariant 1 <= idx <= |changes| + 1
      invariant Processed(v, changes[..idx - 1], env) == Reported(entries)
    {
      var change := changes[idx - 1];
      assert changes[..idx][..idx - 1] == changes[..idx - 1];
      var entry;
      if !Truthy(change.filePath) {
        entry := Skipped(idx, MissingFilePath);
      } else if !Truthy(change.originalContent) {
        entry := Skipped(idx, MissingOriginalContent);
      } else if !Truthy(change.content) {
        entry := Skipped(idx, MissingContent);
      } else {
        var path := change.filePath.value;
        var diff;
        if v == AsWritten {
          diff := GenerateDiffAsWritten(change.originalContent.value, change.content.value, path, env(idx));
        } else {
          diff := GenerateDiff(change.originalContent.value, change.content.value, path, env(idx));
        }
        if diff.Failure? {
          outcome := Aborted(entries, diff.error);
          assert Processed(v, changes[..idx], env) == outcome;
          ProcessedStopsAtError(v, changes, idx, env);
          return;
        }
        var analysis := AnalysisOf(change);
        var summary := if Truthy(analysis.summary) then analysis.summary else None;
        var details := None;
        if analysis.suggestedChanges.Some? && analysis.suggestedChanges.value != [] {
          var listed := ListExplanations(analysis.suggestedChanges.value);
          details := Some(listed);
        }
        entry := Shown(idx, path, diff.value, summary, details);
      }
      entries := entries + [entry];
      idx := idx + 1;
    }
    assert changes[..idx - 1] == changes;
    outcome := Reported(entries);
  }
}
