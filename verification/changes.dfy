/** The change records the improver produces and both the pull-request
    manager and the diff viewer read: JSON objects whose keys may be
    missing. A missing key is `None`; a present key holds its string. */
module Changes {
  import opened Wrappers

  /** One suggested change; only its explanation is read. */
  datatype Suggestion = Suggestion(explanation: Option<string>)

  datatype Analysis = Analysis(summary: Option<string>, suggestedChanges: Option<seq<Suggestion>>)

  datatype FileChange = FileChange(
    filePath: Option<string>,
    content: Option<string>,
    originalContent: Option<string>,
    analysis: Option<Analysis>)

  /** Python truthiness of an optional string: present and non-empty. */
  predicate Truthy(s: Option<string>) {
    s.Some? && s.value != ""
  }
}
