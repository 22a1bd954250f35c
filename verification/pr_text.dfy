/** The texts the pull-request manager writes: commit messages, pull
    request titles and bodies, and the per-file branch names. */
module PrText {
  import opened Wrappers
  import opened Strings
  import opened Changes

  const Wizard: string := "\U{1F9D9}"
  const Page: string := "\U{1F4C4}"
  const DefaultSummary: string := "Code improvements"
  const MaxCommitMessage: nat := 100

  /** `analysis.get('summary', 'Code improvements')` */
  function Summary(a: Analysis): string {
    a.summary.GetOr(DefaultSummary)
  }

  /** The commit message before truncation. */
  function FullCommitMessage(path: string, a: Analysis): string {
    "Improve " + path + ": " + Summary(a)
  }

  /** `f"Improve {file_path}: {summary}"[:100]` */
  function CommitMessage(path: string, a: Analysis): (r: string)
    ensures |r| <= MaxCommitMessage && IsPrefix(r, FullCommitMessage(path, a))
    ensures |FullCommitMessage(path, a)| <= MaxCommitMessage ==> r == FullCommitMessage(path, a)
    ensures |FullCommitMessage(path, a)| > MaxCommitMessage ==> |r| == MaxCommitMessage
  {
    Head(FullCommitMessage(path, a), MaxCommitMessage)
  }

  /** Cutting to 100 characters never loses the file path of a path of up
      to 90 characters. */
  lemma CommitMessageNamesFile(path: string, a: Analysis)
    requires |path| <= 90
    ensures IsPrefix("Improve " + path, CommitMessage(path, a))
  {
    var m, full := CommitMessage(path, a), FullCommitMessage(path, a);
    assert |"Improve " + path| <= |m|;
    assert m[..|"Improve " + path|] == full[..|"Improve " + path|];
  }

  /** `f"RepoSage: Code improvements ({len(all_changes)} files)"` */
  function PrTitle(count: nat): string {
    "RepoSage: Code improvements (" + NatToString(count) + " files)"
  }

  /** The title tells how many files the pull request changes. */
  lemma PrTitleInjective(n: nat, m: nat)
    requires PrTitle(n) == PrTitle(m)
    ensures n == m
  {
    var prefix := "RepoSage: Code improvements (";
    var tn, tm := PrTitle(n), PrTitle(m);
    assert NatToString(n) == tn[|prefix| .. |tn| - 7];
    assert NatToString(m) == tm[|prefix| .. |tm| - 7];
    NatToStringInjective(n, m);
  }

  /** `f"RepoSage: Improve {file_path}"` */
  function FileTitle(path: string): string {
    "RepoSage: Improve " + path
  }

  function Header(): string {
    "# " + Wizard + " RepoSage: AI-Suggested Code Improvements\n\n"
  }

  /** The line for suggestion number `k` (counting from 1): empty when the
      suggestion has no explanation. */
  function ChangeLine(k: nat, s: Suggestion): string {
    match s.explanation
    case None => ""
    case Some(e) => "**Change " + NatToString(k) + "**: " + e + "\n\n"
  }

  /** The lines of `enumerate(suggested_changes, 1)`; the last suggestion
      carries number |s|. */
  function ChangeLines(s: seq<Suggestion>): string {
    if s == [] then "" else ChangeLines(s[..|s| - 1]) + ChangeLine(|s|, s[|s| - 1])
  }

  /** The `### Changes` part, present exactly when the key is. */
  function ChangeList(a: Analysis): string {
    if a.suggestedChanges.Some? then "### Changes\n\n" + ChangeLines(a.suggestedChanges.value) else ""
  }

  /** The heading a file's section starts with. */
  function FileHeading(path: string): string {
    "## " + Page + " " + path + "\n\n"
  }

  function SummaryBlock(a: Analysis): string {
    "### Summary\n" + Summary(a) + "\n\n"
  }

  /** One file's section: heading, summary, changes. */
  function Section(path: string, a: Analysis): string {
    FileHeading(path) + (SummaryBlock(a) + ChangeList(a))
  }

  /** A record the multi-file body can describe. */
  predicate Describable(c: FileChange) {
    c.filePath.Some? && c.analysis.Some?
  }

  /** What the multi-file body reads of a record. */
  datatype Described = Described(path: string, analysis: Analysis)

  function Describe(changes: seq<FileChange>): (r: seq<Described>)
    requires forall i | 0 <= i < |changes| :: Describable(changes[i])
    ensures |r| == |changes|
    ensures forall i | 0 <= i < |changes| ::
      Describable(changes[i]) && r[i] == Described(changes[i].filePath.value, changes[i].analysis.value)
  {
    seq(|changes|, i requires 0 <= i < |changes| =>
      assert Describable(changes[i]);
      Described(changes[i].filePath.value, changes[i].analysis.value))
  }

  /** The sections of the multi-file body, each closed by a rule. */
  function Sections(items: seq<Described>): string {
    if items == [] then ""
    else
      var last := items[|items| - 1];
      Sections(items[..|items| - 1]) + Section(last.path, last.analysis) + Rule()
  }

  function Rule(): string {
    "---\n\n"
  }

  /** The sentence after the header of the multi-file body. */
  function Intro(count: nat): string {
    "This pull request contains improvements suggested by RepoSage across "
      + NatToString(count) + " files.\n\n"
  }

  /** The body of the pull request for all changes. */
  function Body(changes: seq<FileChange>): string
    requires forall i | 0 <= i < |changes| :: Describable(changes[i])
  {
    Header() + Intro(|changes|) + Sections(Describe(changes))
  }

  /** The body of the pull request for one file. */
  function FileBody(path: string, a: Analysis): string {
    Header() + "This pull request contains improvements for `" + path + "`.\n\n" + Section(path, a)
  }

  // ---------------------------------------------------------------------------
  // What the texts contain.

  /** Suggestion k (from 1) with an explanation gets its numbered line;
      the numbering counts the suggestions without one too. */
  lemma {:induction false} ChangeLinesNumbered(s: seq<Suggestion>, k: nat)
    requires 1 <= k <= |s| && s[k - 1].explanation.Some?
    ensures Contains(ChangeLines(s), ChangeLine(k, s[k - 1]))
    decreases |s|
  {
    var prefix, last := s[..|s| - 1], s[|s| - 1];
    assert ChangeLines(s) == ChangeLines(prefix) + ChangeLine(|s|, last);
    if k == |s| {
      ContainsEnd(ChangeLines(prefix), ChangeLine(|s|, last));
    } else {
      assert prefix[k - 1] == s[k - 1];
      ChangeLinesNumbered(prefix, k);
      ContainsExtend(ChangeLines(prefix), ChangeLine(|s|, last), ChangeLine(k, s[k - 1]));
    }
  }

  /** No line at all exactly when no suggestion has an explanation. */
  lemma {:induction false} ChangeLinesEmpty(s: seq<Suggestion>)
    ensures ChangeLines(s) == "" <==> forall i | 0 <= i < |s| :: s[i].explanation.None?
    decreases |s|
  {
    if s != [] {
      var prefix := s[..|s| - 1];
      ChangeLinesEmpty(prefix);
      assert forall i | 0 <= i < |prefix| :: prefix[i] == s[i];
    }
  }

  /** A section starts with its file's heading. */
  lemma SectionHasHeading(path: string, a: Analysis)
    ensures Contains(Section(path, a), FileHeading(path))
  {
    ContainsStart(FileHeading(path), SummaryBlock(a) + ChangeList(a));
  }

  /** The last record's section closes the body's sections. */
  lemma SectionsEndWith(items: seq<Described>)
    requires items != []
    ensures Contains(Sections(items), FileHeading(items[|items| - 1].path))
  {
    var prefix, last := items[..|items| - 1], items[|items| - 1];
    var section := Section(last.path, last.analysis);
    var heading := FileHeading(last.path);
    SectionHasHeading(last.path, last.analysis);
    ContainsPrepend(Sections(prefix), section, heading);
    ContainsExtend(Sections(prefix) + section, Rule(), heading);
  }

  /** The body has a section for every record. */
  lemma {:induction false} SectionsMentionEveryFile(items: seq<Described>, i: nat)
    requires i < |items|
    ensures Contains(Sections(items), FileHeading(items[i].path))
    decreases |items|
  {
    if i == |items| - 1 {
      SectionsEndWith(items);
    } else {
      var prefix, last := items[..|items| - 1], items[|items| - 1];
      var tail := Section(last.path, last.analysis) + Rule();
      assert prefix[i] == items[i];
      SectionsMentionEveryFile(prefix, i);
      ContainsExtend(Sections(prefix), tail, FileHeading(items[i].path));
      AppendAssoc(Sections(prefix), Section(last.path, last.analysis), Rule());
    }
  }

  lemma BodyMentionsEveryFile(changes: seq<FileChange>, i: nat)
    requires forall j | 0 <= j < |changes| :: Describable(changes[j])
    requires i < |changes|
    ensures Contains(Body(changes), FileHeading(changes[i].filePath.value))
  {
    var items := Describe(changes);
    SectionsMentionEveryFile(items, i);
    ContainsPrepend(Header() + Intro(|changes|), Sections(items), FileHeading(items[i].path));
  }

  // ---------------------------------------------------------------------------
  // Building the texts as the source does, by appending.

  /** The `for idx, suggestion in enumerate(..., 1)` loop. */
  method ComposeChangeLines(suggestions: seq<Suggestion>) returns (text: string)
    ensures text == ChangeLines(suggestions)
  {
    text := "";
    var idx := 0;
    while idx < |suggestions|
      invariant 0 <= idx <= |suggestions|
      invariant text == ChangeLines(suggestions[..idx])
    {
      var suggestion := suggestions[idx];
      if suggestion.explanation.Some? {
        text := text + ChangeLine(idx + 1, suggestion);
      }
      assert suggestions[..idx + 1][..idx] == suggestions[..idx];
      idx := idx + 1;
    }
    assert suggestions[..idx] == suggestions;
  }

  /** One file's section, as appended to the body. */
  method ComposeSection(path: string, analysis: Analysis) returns (text: string)
    ensures text == Section(path, analysis)
  {
    var heading := "## " + Page + " " + path + "\n\n";
    var summary := "### Summary\n" + Summary(analysis) + "\n\n";
    var changes := "";
    if analysis.suggestedChanges.Some? {
      var lines := ComposeChangeLines(analysis.suggestedChanges.value);
      changes := "### Changes\n\n" + lines;
    }
    text := heading + (summary + changes);
  }

  /** The body of `create_pull_request`, `None` where reading a record's
      `file_path` or `analysis` raises. */
  method ComposeBody(changes: seq<FileChange>) returns (body: Option<string>)
    ensures body.Some? <==> forall i | 0 <= i < |changes| :: Describable(changes[i])
    ensures body.Some? ==> body.value == Body(changes)
  {
    var sections := "";
    ghost var items: seq<Described> := [];
    var i := 0;
    while i < |changes|
      invariant 0 <= i <= |changes| && |items| == i
      invariant forall j | 0 <= j < i ::
        Describable(changes[j]) && items[j] == Described(changes[j].filePath.value, changes[j].analysis.value)
      invariant sections == Sections(items)
    {
      var change := changes[i];
      if change.filePath.None? || change.analysis.None? {
        return None;
      }
      var section := ComposeSection(change.filePath.value, change.analysis.value);
      ghost var before := items;
      items := items + [Described(change.filePath.value, change.analysis.value)];
      assert items[..i] == before;
      sections := sections + section + Rule();
      i := i + 1;
    }
    assert items == Describe(changes);
    body := Some(Header() + Intro(|changes|) + sections);
  }

}
